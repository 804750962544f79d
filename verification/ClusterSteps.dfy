/** Any number of nodes, stepping: local operations, claims, replication RPCs, restarts of a worker, repairs, sweeps,
    administration. An RPC is one atomic step with three outcomes. */
module ClusterSteps {
  import opened Basics
  import opened Hashing
  import opened Outbox
  import opened Store
  import opened Operations

  /** `origin` remembers, for every path ever allocated, the bytes first written there. No step reads it
      except to keep new paths fresh (a random UUID). */
  datatype Cluster = Cluster(nodes: map<string, Node>, origin: map<string, Bytes>)

  datatype Outcome = Acked | AckLost | Unreached

  datatype Action =
    | Local(at: string, op: LocalOp, now: int)
    | Claims(at: string, now: int)
    | Sends(at: string, outcome: Outcome, recorded: bool, chunks: seq<Bytes>, now: int)
    | Restarts(at: string)
    | Repairs(at: string, peer: string, id: nat, now: int)
    | Sweeps(at: string, paths: set<string>)
    | Configures(at: string, peers: seq<Peer>, buckets: map<nat, Bucket>, nextBucket: nat)

  // ----- Steps -----

  /** The receiving handler for one claimed job. */
  ghost function Handle(peer: Node, job: Claimed, chunks: seq<Bytes>, now: int): (Node, bool) {
    match job.op
    case Put => ReceivePut(peer, MessageFor(job, chunks, now))
    case Delete => (ReceiveDelete(peer, job.filepath), true)
  }

  ghost function AfterHandler(c: Cluster, job: Claimed, outcome: Outcome, chunks: seq<Bytes>, now: int): (map<string, Node>, bool) {
    if outcome.Unreached? || job.peer !in c.nodes then (c.nodes, false)
    else
      var (peer, ok) := Handle(c.nodes[job.peer], job, chunks, now);
      (c.nodes[job.peer := peer], ok && outcome.Acked?)
  }

  /** The outbox once the head of its batch was dealt with; `recorded` is false when the statement that completes or
      fails the job fails. */
  function Disposed(q: Queue, ok: bool, recorded: bool, now: int): Queue
    requires q.batch != []
  {
    if recorded then Finish(q, ok, now) else Forget(q)
  }

  ghost function Send(c: Cluster, at: string, outcome: Outcome, recorded: bool, chunks: seq<Bytes>, now: int): Cluster
    requires at in c.nodes && c.nodes[at].queue.batch != []
  {
    var job := c.nodes[at].queue.batch[0];
    var (nodes, ok) := AfterHandler(c, job, outcome, chunks, now);
    assert nodes[at].queue.batch == c.nodes[at].queue.batch;
    c.(nodes := nodes[at := nodes[at].(queue := Disposed(nodes[at].queue, ok, recorded, now))])
  }

  /** A PUT for this peer and path is already waiting. */
  predicate RepairQueued(q: Queue, peer: string, filepath: string) {
    exists j :: j in q.jobs && q.jobs[j].peer == peer && q.jobs[j].filepath == filepath && q.jobs[j].op == Put
  }

  /** `enqueue_put_for_peer`, which skips a job that is already there. */
  function Repair(n: Node, peer: string, id: nat, now: int): Node
    requires id in n.objects
  {
    var row := n.objects[id];
    if RepairQueued(n.queue, peer, row.filepath) then n
    else n.(queue := Push(n.queue, Ticket(peer, id, row.filepath, row.etag, Put), now))
  }

  /** Remove disk files that no row refers to. */
  ghost function Sweep(n: Node, paths: set<string>): Node {
    n.(blobs := map fp | fp in n.blobs && (fp !in paths || PathTaken(n.objects, fp)) :: n.blobs[fp])
  }

  ghost predicate MayStep(c: Cluster, a: Action) {
    && a.at in c.nodes
    && match a
       case Local(at, op, _) => op.Upload? ==> op.req.filepath !in c.origin
       case Claims(at, _) => c.nodes[at].queue.batch == []
       case Sends(at, _, _, chunks, _) =>
         var q := c.nodes[at].queue;
         q.batch != [] && (q.batch[0].op == Put ==> MaySend(c.nodes[at], SourcePath(q.batch[0]), chunks))
       case Repairs(at, _, id, _) => id in c.nodes[at].objects && Active(c.nodes[at].objects[id])
       case Restarts(_) => true
       case Sweeps(_, _) => true
       case Configures(at, _, buckets, nextBucket) =>
         TidyBuckets(buckets, nextBucket) && forall i :: i in c.nodes[at].objects ==> c.nodes[at].objects[i].bucket in buckets
  }

  ghost function Step(c: Cluster, a: Action): Cluster
    requires MayStep(c, a)
  {
    var n := c.nodes[a.at];
    match a
    case Local(at, op, now) =>
      Cluster(c.nodes[at := Apply(n, at, op, now)],
              if op.Upload? then c.origin[op.req.filepath := Written(op.req, op.fault)] else c.origin)
    case Claims(at, now) => c.(nodes := c.nodes[at := ClaimJobs(n, now)])
    case Sends(at, outcome, recorded, chunks, now) => Send(c, at, outcome, recorded, chunks, now)
    case Restarts(at) => c.(nodes := c.nodes[at := n.(queue := n.queue.(batch := []))])
    case Repairs(at, peer, id, now) => c.(nodes := c.nodes[at := Repair(n, peer, id, now)])
    case Sweeps(at, paths) => c.(nodes := c.nodes[at := Sweep(n, paths)])
    case Configures(at, peers, buckets, nextBucket) =>
      c.(nodes := c.nodes[at := n.(peers := peers, buckets := buckets, nextBucket := nextBucket)])
  }

  ghost predicate IsRun(c: Cluster, run: seq<Action>)
    decreases |run|
  {
    run == [] || (MayStep(c, run[0]) && IsRun(Step(c, run[0]), run[1..]))
  }

  ghost function Exec(c: Cluster, run: seq<Action>): Cluster
    requires IsRun(c, run)
    decreases |run|
  {
    if run == [] then c else Exec(Step(c, run[0]), run[1..])
  }

  lemma {:induction false} ExecSnoc(c: Cluster, run: seq<Action>, a: Action)
    requires IsRun(c, run) && MayStep(Exec(c, run), a)
    ensures IsRun(c, run + [a]) && Exec(c, run + [a]) == Step(Exec(c, run), a)
    decreases |run|
  {
    if run == [] {
      assert [] + [a] == [a] && [a][1..] == [];
    } else {
      assert (run + [a])[1..] == run[1..] + [a];
      ExecSnoc(Step(c, run[0]), run[1..], a);
    }
  }

  /** A cluster before its first upload: any nodes, any configuration, empty tables and disks. */
  ghost predicate Fresh(c: Cluster) {
    && c.origin == map[]
    && forall a :: a in c.nodes ==>
         var n := c.nodes[a];
         n.objects == map[] && n.blobs == map[] && n.queue == EMPTY && TidyBuckets(n.buckets, n.nextBucket)
  }

  // ----- What every step keeps -----

  ghost predicate BlobsTrue(blobs: map<string, Bytes>, origin: map<string, Bytes>) {
    forall fp :: fp in blobs ==> fp in origin && blobs[fp] == origin[fp]
  }

  ghost predicate RowTrue(r: Row, origin: map<string, Bytes>) {
    r.filepath in origin && r.etag == Digest(r.etagType, origin[r.filepath]) && r.size == |origin[r.filepath]|
  }

  ghost predicate RowsTrue(objects: map<nat, Row>, origin: map<string, Bytes>) {
    forall i :: i in objects ==> RowTrue(objects[i], origin)
  }

  ghost predicate Names(filepath: string, etag: Etag, origin: map<string, Bytes>) {
    filepath in origin && etag.hashed == origin[filepath]
  }

  ghost predicate ClaimTrue(c: Claimed, origin: map<string, Bytes>) {
    && Names(c.filepath, c.etag, origin)
    && (c.meta.Some? ==> Names(c.meta.value.filepath, c.meta.value.etag, origin))
  }

  ghost predicate QueueTrue(q: Queue, origin: map<string, Bytes>) {
    && (forall i :: i in q.jobs ==> Names(q.jobs[i].filepath, q.jobs[i].etag, origin))
    && (forall k :: 0 <= k < |q.batch| ==> ClaimTrue(q.batch[k], origin))
  }

  ghost predicate NodeTrue(n: Node, origin: map<string, Bytes>) {
    BlobsTrue(n.blobs, origin) && RowsTrue(n.objects, origin) && QueueTrue(n.queue, origin)
  }

  ghost predicate Inv(c: Cluster) {
    forall a :: a in c.nodes ==> Sound(c.nodes[a]) && NodeTrue(c.nodes[a], c.origin)
  }
}
