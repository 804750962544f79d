/** What can take a stored object away: over every run a blob or a row leaves a node by one of a few named steps, and
    a retried PUT that fails its check is one of them. */
module ClusterDurability {
  import opened Basics
  import opened Hashing
  import opened Outbox
  import opened Store
  import opened Lifecycle
  import opened Operations
  import opened ClusterSteps
  import opened ClusterSafety
  import opened ClusterDelivery

  // ----- The steps that remove -----

  /** A payload that does not carry the announced digest. */
  predicate FailsCheck(m: PutMessage) {
    Digest(m.etagType, Flatten(m.chunks)) != m.etag
  }

  /** A job whose call reaches `b`. */
  predicate Reaches(c: Cluster, a: Action, b: string) {
    && a.Sends? && !a.outcome.Unreached? && a.at in c.nodes && c.nodes[a.at].queue.batch != []
    && b in c.nodes && c.nodes[a.at].queue.batch[0].peer == b
  }

  /** The step takes the blob under `fp` from `b`: a purge of its row, a delivered DELETE, a sweep of a file without a
      row, or a delivered PUT whose payload fails its check. */
  ghost predicate LosesBlob(c: Cluster, a: Action, b: string, fp: string) {
    b in c.nodes &&
    match a
    case Local(at, op, _) => at == b && op.PurgeItem? && op.id in c.nodes[b].objects && c.nodes[b].objects[op.id].filepath == fp
    case Sends(at, _, _, chunks, now) =>
      Reaches(c, a, b) &&
      var job := c.nodes[at].queue.batch[0];
      if job.op == Delete then job.filepath == fp
      else MessageFor(job, chunks, now).filepath == fp && FailsCheck(MessageFor(job, chunks, now))
    case Sweeps(at, paths) => at == b && fp in paths && !PathTaken(c.nodes[b].objects, fp)
    case _ => false
  }

  /** The step takes row `i` from `b`: its purge, or a delivered DELETE of its path. */
  ghost predicate LosesRow(c: Cluster, a: Action, b: string, i: nat) {
    b in c.nodes && i in c.nodes[b].objects &&
    match a
    case Local(at, op, _) => at == b && op == PurgeItem(i)
    case Sends(at, _, _, _, _) =>
      Reaches(c, a, b) && c.nodes[at].queue.batch[0].op == Delete &&
      c.nodes[at].queue.batch[0].filepath == c.nodes[b].objects[i].filepath
    case _ => false
  }

  // ----- One step -----

  lemma LocalBlobs(n: Node, self: string, op: LocalOp, now: int, fp: string)
    requires fp in n.blobs && (op.Upload? ==> op.req.filepath != fp)
    ensures fp in Apply(n, self, op, now).blobs <==>
              !(op.PurgeItem? && op.id in n.objects && n.objects[op.id].filepath == fp)
  {
    match op {
      case PurgeItem(id) => if id in n.objects { PurgeRemoves(n, self, id, now); }
      case _ =>
    }
  }

  lemma LocalRows(n: Node, self: string, op: LocalOp, now: int, i: nat)
    requires i in n.objects && i < n.nextObject
    ensures i in Apply(n, self, op, now).objects <==> op != PurgeItem(i)
  {
    match op {
      case PurgeItem(id) => if id in n.objects { PurgeRemoves(n, self, id, now); }
      case Upload(req, fault) => PutTables(n, self, req, fault, now);
      case _ =>
    }
  }

  lemma ReceivedBlobs(n: Node, m: PutMessage, fp: string)
    requires fp in n.blobs
    ensures fp in ReceivePut(n, m).0.blobs <==> !(m.filepath == fp && FailsCheck(m))
  {
  }

  lemma ReceivedRows(n: Node, m: PutMessage, i: nat)
    requires i in n.objects
    ensures i in ReceivePut(n, m).0.objects
  {
  }

  lemma SendBlobs(c: Cluster, a: Action, b: string, fp: string)
    requires MayStep(c, a) && a.Sends? && b in c.nodes && fp in c.nodes[b].blobs
    ensures b in Step(c, a).nodes && (fp in Step(c, a).nodes[b].blobs <==> !LosesBlob(c, a, b, fp))
  {
    var job := c.nodes[a.at].queue.batch[0];
    FinishTouchesOnlyQueue(c, a, b);
    if Reaches(c, a, b) && job.op == Put { ReceivedBlobs(c.nodes[b], MessageFor(job, a.chunks, a.now), fp); }
  }

  lemma SendRows(c: Cluster, a: Action, b: string, i: nat)
    requires MayStep(c, a) && a.Sends? && b in c.nodes && i in c.nodes[b].objects && UniquePaths(c.nodes[b].objects)
    ensures b in Step(c, a).nodes && (i in Step(c, a).nodes[b].objects <==> !LosesRow(c, a, b, i))
  {
    var job := c.nodes[a.at].queue.batch[0];
    FinishTouchesOnlyQueue(c, a, b);
    if Reaches(c, a, b) && job.op == Put { ReceivedRows(c.nodes[b], MessageFor(job, a.chunks, a.now), i); }
  }

  /** A step takes a blob away exactly when it is one of the named kinds. An upload never does: its path is new. */
  lemma BlobLostExactly(c: Cluster, a: Action, b: string, fp: string)
    requires Inv(c) && MayStep(c, a) && b in c.nodes && fp in c.nodes[b].blobs
    ensures b in Step(c, a).nodes && (fp in Step(c, a).nodes[b].blobs <==> !LosesBlob(c, a, b, fp))
  {
    assert BlobsTrue(c.nodes[b].blobs, c.origin);
    match a {
      case Local(at, op, now) => if at == b { LocalBlobs(c.nodes[b], at, op, now, fp); }
      case Sends(_, _, _, _, _) => SendBlobs(c, a, b, fp);
      case _ =>
    }
  }

  /** A step takes a row away exactly when it purges it or delivers a DELETE of its path. */
  lemma RowLostExactly(c: Cluster, a: Action, b: string, i: nat)
    requires Inv(c) && MayStep(c, a) && b in c.nodes && i in c.nodes[b].objects
    ensures b in Step(c, a).nodes && (i in Step(c, a).nodes[b].objects <==> !LosesRow(c, a, b, i))
  {
    assert Sound(c.nodes[b]);
    match a {
      case Local(at, op, now) => if at == b { LocalRows(c.nodes[b], at, op, now, i); }
      case Sends(_, _, _, _, _) => SendRows(c, a, b, i);
      case _ =>
    }
  }

  // ----- Whole runs -----

  ghost predicate NoBlobLoss(c: Cluster, run: seq<Action>, b: string, fp: string)
    requires IsRun(c, run)
    decreases |run|
  {
    run == [] || (!LosesBlob(c, run[0], b, fp) && NoBlobLoss(Step(c, run[0]), run[1..], b, fp))
  }

  ghost predicate NoRowLoss(c: Cluster, run: seq<Action>, b: string, i: nat)
    requires IsRun(c, run)
    decreases |run|
  {
    run == [] || (!LosesRow(c, run[0], b, i) && NoRowLoss(Step(c, run[0]), run[1..], b, i))
  }

  /** Over every run a stored blob stays on its node, with its bytes, unless the run contains a purge of its row, a
      delivered DELETE of its path, a sweep of it without a row, or a delivered PUT of its path that fails its check. */
  lemma {:induction false} BlobEndures(c: Cluster, run: seq<Action>, b: string, fp: string)
    requires Inv(c) && IsRun(c, run) && b in c.nodes && fp in c.nodes[b].blobs && NoBlobLoss(c, run, b, fp)
    ensures b in Exec(c, run).nodes && fp in Exec(c, run).nodes[b].blobs
    ensures Exec(c, run).nodes[b].blobs[fp] == c.nodes[b].blobs[fp]
    decreases |run|
  {
    if run != [] {
      var d := Step(c, run[0]);
      StepKeepsInv(c, run[0]);
      BlobLostExactly(c, run[0], b, fp);
      SameBytes(c, run[0], b, fp);
      BlobEndures(d, run[1..], b, fp);
    }
  }

  lemma SameBytes(c: Cluster, a: Action, b: string, fp: string)
    requires Inv(c) && MayStep(c, a) && Inv(Step(c, a)) && b in c.nodes && b in Step(c, a).nodes
    requires fp in c.nodes[b].blobs && fp in Step(c, a).nodes[b].blobs
    ensures Step(c, a).nodes[b].blobs[fp] == c.nodes[b].blobs[fp]
  {
    assert BlobsTrue(c.nodes[b].blobs, c.origin);
    assert BlobsTrue(Step(c, a).nodes[b].blobs, Step(c, a).origin);
    StepKeepsOrigin(c, a, fp);
  }

  /** Over every run a row, active or recycled, stays on its node unless it is purged there or a DELETE of its path is
      delivered: replication never removes a row in any other way. */
  lemma {:induction false} RowEndures(c: Cluster, run: seq<Action>, b: string, i: nat)
    requires Inv(c) && IsRun(c, run) && b in c.nodes && i in c.nodes[b].objects && NoRowLoss(c, run, b, i)
    ensures b in Exec(c, run).nodes && i in Exec(c, run).nodes[b].objects
    decreases |run|
  {
    if run != [] {
      StepKeepsInv(c, run[0]);
      RowLostExactly(c, run[0], b, i);
      RowEndures(Step(c, run[0]), run[1..], b, i);
    }
  }
}
