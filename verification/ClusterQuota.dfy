/** Hard quotas in a cluster: uploads are checked, restores and received replicas are not, and exactly these can pass a
    limit. */
module ClusterQuota {
  import opened Basics
  import opened Outbox
  import opened Store
  import opened Lifecycle
  import opened Operations
  import opened ClusterSteps
  import opened ClusterSafety
  import opened ClusterDurability

  // ----- One received replica -----

  /** A received PUT that adds a row to this bucket. */
  ghost predicate AddsTo(n: Node, m: PutMessage, bucket: nat) {
    && !FailsCheck(m) && !PathTaken(n.objects, m.filepath)
    && bucket in n.buckets && n.buckets[bucket].name == TargetName(m.bucketName)
    && FindActive(n.objects, bucket, m.name).None?
  }

  lemma NameIsBucket(n: Node, name: string, bucket: nat)
    requires Sound(n) && bucket in n.buckets
    ensures FindBucket(n.buckets, name) == Some(bucket) <==> n.buckets[bucket].name == name
  {
  }

  lemma InsertedUsage(n: Node, row: Row, bucket: nat)
    requires Sound(n) && Active(row)
    ensures UsedBytes(InsertIdempotent(n, row).0, bucket) == UsedBytes(n, bucket) +
              (if !PathTaken(n.objects, row.filepath) && row.bucket == bucket && FindActive(n.objects, bucket, row.key).None? then row.size else 0)
  {
    if !PathTaken(n.objects, row.filepath) && FindActive(n.objects, row.bucket, row.key).None? {
      InsertUsage(n.objects, n.nextObject, row, bucket);
    }
  }

  /** A received replica is not checked: it adds its size to the bucket it is recorded in. */
  lemma ReceivedUsage(n: Node, m: PutMessage, bucket: nat)
    requires Sound(n) && bucket in n.buckets
    ensures UsedBytes(ReceivePut(n, m).0, bucket) == UsedBytes(n, bucket) + (if AddsTo(n, m, bucket) then |Flatten(m.chunks)| else 0)
  {
    if !FailsCheck(m) {
      var bytes := Flatten(m.chunks);
      var written := n.(blobs := n.blobs[m.filepath := bytes]);
      var (placed, b) := EnsureBucket(written, TargetName(m.bucketName));
      EnsureBucketKeepsSound(written, m.bucketName);
      NameIsBucket(n, TargetName(m.bucketName), bucket);
      assert placed.objects == n.objects && placed.nextObject == n.nextObject && b == bucket <==> n.buckets[bucket].name == TargetName(m.bucketName);
      InsertedUsage(placed, Row(b, m.name, m.filepath, m.format, |bytes|, m.etagType, m.etag, m.uploaded, m.modified, None), bucket);
    }
  }

  /** It keeps a limit exactly when it adds nothing to the bucket, or usage plus its size is within the limit. */
  lemma ReceiveRespectsExactly(n: Node, m: PutMessage, bucket: nat, limit: int)
    requires Sound(n) && bucket in n.buckets
    ensures Respects(n, ReceivePut(n, m).0, bucket, limit) <==>
              (AddsTo(n, m, bucket) ==> UsedBytes(n, bucket) + |Flatten(m.chunks)| <= limit || Flatten(m.chunks) == [])
  {
    ReceivedUsage(n, m, bucket);
  }

  // ----- One step -----

  /** The step keeps node `b` within the limit: what it adds without a check has to fit. */
  ghost predicate GuardedStep(c: Cluster, a: Action, b: string, bucket: nat, limit: int)
    requires MayStep(c, a) && b in c.nodes
  {
    match a
    case Local(at, op, now) => at == b ==> Guarded(c.nodes[b], b, op, now, bucket, limit)
    case Sends(at, _, _, chunks, now) =>
      Reaches(c, a, b) && c.nodes[at].queue.batch[0].op == Put ==>
        var m := MessageFor(c.nodes[at].queue.batch[0], chunks, now);
        AddsTo(c.nodes[b], m, bucket) ==> UsedBytes(c.nodes[b], bucket) + |Flatten(chunks)| <= limit || Flatten(chunks) == []
    case _ => true
  }

  lemma SameRowsRespect(n: Node, m: Node, bucket: nat, limit: int)
    requires m.objects == n.objects && m.nextObject == n.nextObject
    ensures Respects(n, m, bucket, limit)
  {
  }

  lemma DeleteRespects(n: Node, filepath: string, bucket: nat, limit: int)
    ensures Respects(n, ReceiveDelete(n, filepath), bucket, limit)
  {
    UsedShrinks(n.objects, ReceiveDelete(n, filepath).objects, bucket, n.nextObject);
  }

  lemma SentNode(c: Cluster, a: Action, b: string)
    requires MayStep(c, a) && a.Sends? && b in c.nodes
    ensures b in Step(c, a).nodes
    ensures var job := c.nodes[a.at].queue.batch[0];
      var n := if Reaches(c, a, b) then Handle(c.nodes[b], job, a.chunks, a.now).0 else c.nodes[b];
      Step(c, a).nodes[b].objects == n.objects && Step(c, a).nodes[b].nextObject == n.nextObject && Step(c, a).nodes[b].buckets == n.buckets
  {
    HandlerKeepsBatch(c, a.at, c.nodes[a.at].queue.batch[0], a.outcome, a.chunks, a.now);
  }

  lemma SendRespects(c: Cluster, a: Action, b: string, bucket: nat, limit: int)
    requires Inv(c) && MayStep(c, a) && a.Sends? && b in c.nodes && bucket in c.nodes[b].buckets
    ensures b in Step(c, a).nodes
    ensures Respects(c.nodes[b], Step(c, a).nodes[b], bucket, limit) <==> GuardedStep(c, a, b, bucket, limit)
  {
    var job := c.nodes[a.at].queue.batch[0];
    assert Sound(c.nodes[b]);
    SentNode(c, a, b);
    if Reaches(c, a, b) {
      match job.op {
        case Put => ReceiveRespectsExactly(c.nodes[b], MessageFor(job, a.chunks, a.now), bucket, limit);
        case Delete => DeleteRespects(c.nodes[b], job.filepath, bucket, limit);
      }
    }
  }

  lemma LocalNode(c: Cluster, a: Action, b: string)
    requires MayStep(c, a) && a.Local? && b in c.nodes
    ensures b in Step(c, a).nodes
    ensures Step(c, a).nodes[b] == if a.at == b then Apply(c.nodes[b], b, a.op, a.now) else c.nodes[b]
  {
  }

  lemma QuietNode(c: Cluster, a: Action, b: string)
    requires MayStep(c, a) && !a.Local? && !a.Sends? && b in c.nodes
    ensures b in Step(c, a).nodes
    ensures Step(c, a).nodes[b].objects == c.nodes[b].objects && Step(c, a).nodes[b].nextObject == c.nodes[b].nextObject
    ensures !(a.Configures? && a.at == b) ==> Step(c, a).nodes[b].buckets == c.nodes[b].buckets
  {
  }

  /** One step of a cluster keeps a hard limit of a node exactly when it is guarded. */
  lemma StepRespectsExactly(c: Cluster, a: Action, b: string, bucket: nat, limit: int)
    requires Inv(c) && MayStep(c, a) && b in c.nodes && HardLimit(c.nodes[b], bucket, limit)
    ensures b in Step(c, a).nodes
    ensures Respects(c.nodes[b], Step(c, a).nodes[b], bucket, limit) <==> GuardedStep(c, a, b, bucket, limit)
  {
    var n := c.nodes[b];
    if a.Sends? {
      SendRespects(c, a, b, bucket, limit);
    } else if a.Local? {
      LocalNode(c, a, b);
      if a.at == b {
        assert Sound(n);
        ApplyRespects(n, b, a.op, a.now, bucket, limit);
      }
    } else {
      QuietNode(c, a, b);
      SameRowsRespect(n, Step(c, a).nodes[b], bucket, limit);
    }
  }

  // ----- Whole runs -----

  lemma HandleKeepsLimit(n: Node, job: Claimed, chunks: seq<Bytes>, now: int, bucket: nat, limit: int)
    requires Sound(n) && HardLimit(n, bucket, limit)
    ensures HardLimit(Handle(n, job, chunks, now).0, bucket, limit)
  {
    match job.op {
      case Put => ReceiveKeepsBucket(n, MessageFor(job, chunks, now), bucket);
      case Delete => assert ReceiveDelete(n, job.filepath).buckets == n.buckets;
    }
  }

  lemma ReceiveKeepsBucket(n: Node, m: PutMessage, bucket: nat)
    requires Sound(n) && bucket in n.buckets
    ensures var after := ReceivePut(n, m).0; bucket in after.buckets && after.buckets[bucket] == n.buckets[bucket]
  {
    if !FailsCheck(m) {
      var written := n.(blobs := n.blobs[m.filepath := Flatten(m.chunks)]);
      EnsureKeepsBucket(written, TargetName(m.bucketName), bucket);
    }
  }

  lemma EnsureKeepsBucket(n: Node, name: string, bucket: nat)
    requires bucket in n.buckets && bucket < n.nextBucket
    ensures bucket in EnsureBucket(n, name).0.buckets && EnsureBucket(n, name).0.buckets[bucket] == n.buckets[bucket]
  {
  }

  lemma StepKeepsLimit(c: Cluster, a: Action, b: string, bucket: nat, limit: int)
    requires Inv(c) && MayStep(c, a) && b in c.nodes && HardLimit(c.nodes[b], bucket, limit)
    requires !(a.Configures? && a.at == b)
    ensures b in Step(c, a).nodes && HardLimit(Step(c, a).nodes[b], bucket, limit)
  {
    var n := c.nodes[b];
    if a.Sends? {
      assert Sound(n);
      SentNode(c, a, b);
      HandleKeepsLimit(n, c.nodes[a.at].queue.batch[0], a.chunks, a.now, bucket, limit);
      SameLimit(if Reaches(c, a, b) then Handle(n, c.nodes[a.at].queue.batch[0], a.chunks, a.now).0 else n, Step(c, a).nodes[b], bucket, limit);
    } else if a.Local? {
      LocalNode(c, a, b);
      if a.at == b { ApplyKeepsBuckets(n, b, a.op, a.now); }
      SameLimit(n, Step(c, a).nodes[b], bucket, limit);
    } else {
      QuietNode(c, a, b);
      SameLimit(n, Step(c, a).nodes[b], bucket, limit);
    }
  }

  lemma SameLimit(n: Node, m: Node, bucket: nat, limit: int)
    requires HardLimit(n, bucket, limit) && m.buckets == n.buckets
    ensures HardLimit(m, bucket, limit)
  {
  }

  predicate Unchanged(run: seq<Action>, b: string) {
    forall i :: 0 <= i < |run| ==> !(run[i].Configures? && run[i].at == b)
  }

  ghost predicate GuardedCluster(c: Cluster, run: seq<Action>, b: string, bucket: nat, limit: int)
    requires IsRun(c, run)
    decreases |run|
  {
    run == [] || (b in c.nodes && GuardedStep(c, run[0], b, bucket, limit) && GuardedCluster(Step(c, run[0]), run[1..], b, bucket, limit))
  }

  /** Every single step of the run keeps the limit on node `b`. */
  ghost predicate KeepsLimit(c: Cluster, run: seq<Action>, b: string, bucket: nat, limit: int)
    requires IsRun(c, run)
    decreases |run|
  {
    run == [] ||
    var d := Step(c, run[0]);
    b in c.nodes && b in d.nodes && Respects(c.nodes[b], d.nodes[b], bucket, limit) && KeepsLimit(d, run[1..], b, bucket, limit)
  }

  /** What every step keeps, the run keeps. */
  lemma {:induction false} KeptToTheEnd(c: Cluster, run: seq<Action>, b: string, bucket: nat, limit: int)
    requires IsRun(c, run) && b in c.nodes && KeepsLimit(c, run, b, bucket, limit)
    ensures b in Exec(c, run).nodes && Respects(c.nodes[b], Exec(c, run).nodes[b], bucket, limit)
    decreases |run|
  {
    if run != [] { KeptToTheEnd(Step(c, run[0]), run[1..], b, bucket, limit); }
  }

  lemma StepOn(c: Cluster, a: Action, b: string, bucket: nat, limit: int)
    requires Inv(c) && MayStep(c, a) && b in c.nodes && HardLimit(c.nodes[b], bucket, limit) && !(a.Configures? && a.at == b)
    ensures Inv(Step(c, a)) && b in Step(c, a).nodes && HardLimit(Step(c, a).nodes[b], bucket, limit)
    ensures Respects(c.nodes[b], Step(c, a).nodes[b], bucket, limit) <==> GuardedStep(c, a, b, bucket, limit)
  {
    StepRespectsExactly(c, a, b, bucket, limit);
    StepKeepsLimit(c, a, b, bucket, limit);
    StepKeepsInv(c, a);
  }

  /** Over every cluster run, with whatever the other nodes send, no hard allocation a bucket of node `b` is within is
      passed, and a bucket that is over one does not grow, exactly when every restore and every received replica fits. */
  lemma {:induction false} ClusterQuotaHolds(c: Cluster, run: seq<Action>, b: string, bucket: nat, limit: int)
    requires Inv(c) && IsRun(c, run) && b in c.nodes && HardLimit(c.nodes[b], bucket, limit) && Unchanged(run, b)
    ensures KeepsLimit(c, run, b, bucket, limit) <==> GuardedCluster(c, run, b, bucket, limit)
    decreases |run|
  {
    if run != [] {
      StepOn(c, run[0], b, bucket, limit);
      ClusterQuotaHolds(Step(c, run[0]), run[1..], b, bucket, limit);
    }
  }
}
