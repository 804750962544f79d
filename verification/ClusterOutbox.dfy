/** Every node's outbox, in any cluster run, is a run of the outbox machine: its theorems hold everywhere. */
module ClusterOutbox {
  import opened Hashing
  import opened Outbox
  import opened OutboxAudit
  import opened OutboxJobs
  import opened Store
  import opened Lifecycle
  import opened Operations
  import opened ClusterSteps
  import opened ClusterSafety

  function EnqueueEvents(ts: seq<Ticket>, now: int): seq<Event> {
    if ts == [] then [] else [Enqueued(ts[0], now)] + EnqueueEvents(ts[1..], now)
  }

  lemma {:induction false} EnqueueEventsPush(q: Queue, ts: seq<Ticket>, now: int)
    ensures Legal(q, EnqueueEvents(ts, now)) && Run(q, EnqueueEvents(ts, now)) == PushAll(q, ts, now)
    decreases |ts|
  {
    if ts != [] {
      EnqueueEventsPush(Push(q, ts[0], now), ts[1..], now);
      assert EnqueueEvents(ts, now)[1..] == EnqueueEvents(ts[1..], now);
    }
  }

  ghost function LocalEvents(n: Node, self: string, op: LocalOp, now: int): seq<Event> {
    match op
    case Upload(req, fault) =>
      if PutObject(n, self, req, fault, now).1.Stored? && req.bucket in n.buckets then
        EnqueueEvents(Tickets(Receivers(n.peers, n.buckets[req.bucket], self), n.nextObject, req.filepath, NewRow(n, req, now).etag, Put), now)
      else []
    case PurgeItem(id) =>
      if id in n.objects then
        EnqueueEvents(EnqueuedTickets(n, self, id, n.objects[id].filepath, n.objects[id].etag, Delete), now) + [Detached(id)]
      else []
    case RehashItem(id, alg, announced) =>
      if announced && id in n.objects && Active(n.objects[id]) && n.objects[id].filepath in n.blobs then
        EnqueueEvents(EnqueuedTickets(n, self, id, n.objects[id].filepath, Digest(alg, n.blobs[n.objects[id].filepath]), Put), now)
      else []
    case _ => []
  }

  lemma LocalIsQueueRun(n: Node, self: string, op: LocalOp, now: int)
    ensures Legal(n.queue, LocalEvents(n, self, op, now))
    ensures Run(n.queue, LocalEvents(n, self, op, now)) == Apply(n, self, op, now).queue
  {
    match op {
      case Upload(req, fault) =>
        PutTables(n, self, req, fault, now);
        if PutObject(n, self, req, fault, now).1.Stored? {
          EnqueueEventsPush(n.queue, Tickets(Receivers(n.peers, n.buckets[req.bucket], self), n.nextObject, req.filepath,
                                             NewRow(n, req, now).etag, Put), now);
        }
      case PurgeItem(id) => PurgeIsQueueRun(n, self, id, now);
      case RehashItem(id, alg, announced) => RehashIsQueueRun(n, self, id, alg, announced, now);
      case _ =>
    }
  }

  lemma PurgeIsQueueRun(n: Node, self: string, id: nat, now: int)
    ensures Legal(n.queue, LocalEvents(n, self, PurgeItem(id), now))
    ensures Run(n.queue, LocalEvents(n, self, PurgeItem(id), now)) == Purge(n, self, id, now).queue
  {
    if id in n.objects {
      var ts := EnqueuedTickets(n, self, id, n.objects[id].filepath, n.objects[id].etag, Delete);
      EnqueueEventsPush(n.queue, ts, now);
      RunOne(PushAll(n.queue, ts, now), Detached(id));
      RunAppend(n.queue, EnqueueEvents(ts, now), [Detached(id)]);
    }
  }

  lemma RehashIsQueueRun(n: Node, self: string, id: nat, alg: EtagType, announced: bool, now: int)
    ensures Legal(n.queue, LocalEvents(n, self, RehashItem(id, alg, announced), now))
    ensures Run(n.queue, LocalEvents(n, self, RehashItem(id, alg, announced), now)) == Rehash(n, self, id, alg, announced, now).queue
  {
    if id in n.objects && Active(n.objects[id]) && n.objects[id].filepath in n.blobs {
      var row := n.objects[id];
      EnqueueEventsPush(n.queue, EnqueuedTickets(n, self, id, row.filepath, Digest(alg, n.blobs[row.filepath]), Put), now);
    }
  }

  lemma RunOne(q: Queue, e: Event)
    requires Enabled(q, e)
    ensures Legal(q, [e]) && Run(q, [e]) == Next(q, e)
  {
    assert [e][1..] == [];
  }

  /** What a received RPC does to the receiver's own outbox: at most one reference is nulled. */
  ghost function HandlerEvents(c: Cluster, a: Action, b: string): seq<Event>
    requires MayStep(c, a) && a.Sends?
  {
    var job := c.nodes[a.at].queue.batch[0];
    if a.outcome.Unreached? || job.peer != b || b !in c.nodes || job.op == Put then []
    else
      var found := FindPath(c.nodes[b].objects, job.filepath);
      if found.Some? then [Detached(found.value)] else []
  }

  ghost function StepEvents(c: Cluster, a: Action, b: string): seq<Event>
    requires MayStep(c, a)
  {
    var n := c.nodes[a.at];
    match a
    case Local(at, op, now) => if at == b then LocalEvents(n, at, op, now) else []
    case Claims(at, now) => if at == b then [Claiming(now, ActivePeers(n), JoinedMeta(n))] else []
    case Sends(at, outcome, recorded, chunks, now) =>
      HandlerEvents(c, a, b) +
      (if at == b then [Finished(AfterHandler(c, n.queue.batch[0], outcome, chunks, now).1, recorded, now)] else [])
    case Restarts(at) => if at == b then [Restarted] else []
    case Repairs(at, peer, id, now) =>
      if at == b && !RepairQueued(n.queue, peer, n.objects[id].filepath)
      then [Enqueued(Ticket(peer, id, n.objects[id].filepath, n.objects[id].etag, Put), now)]
      else []
    case _ => []
  }

  lemma HandlerIsQueueRun(c: Cluster, a: Action, b: string)
    requires MayStep(c, a) && a.Sends? && b in c.nodes
    ensures var nodes := AfterHandler(c, c.nodes[a.at].queue.batch[0], a.outcome, a.chunks, a.now).0;
      b in nodes && Legal(c.nodes[b].queue, HandlerEvents(c, a, b)) && Run(c.nodes[b].queue, HandlerEvents(c, a, b)) == nodes[b].queue
  {
    var job := c.nodes[a.at].queue.batch[0];
    if job.peer == b && job.op == Delete && FindPath(c.nodes[b].objects, job.filepath).Some? {
      RunOne(c.nodes[b].queue, Detached(FindPath(c.nodes[b].objects, job.filepath).value));
    }
  }

  lemma SendIsQueueRun(c: Cluster, a: Action, b: string)
    requires MayStep(c, a) && a.Sends? && b in c.nodes
    ensures b in Step(c, a).nodes && Legal(c.nodes[b].queue, StepEvents(c, a, b))
    ensures Run(c.nodes[b].queue, StepEvents(c, a, b)) == Step(c, a).nodes[b].queue
  {
    var job := c.nodes[a.at].queue.batch[0];
    var (nodes, ok) := AfterHandler(c, job, a.outcome, a.chunks, a.now);
    HandlerIsQueueRun(c, a, b);
    if a.at == b {
      HandlerKeepsBatch(c, b, job, a.outcome, a.chunks, a.now);
      RunOne(nodes[b].queue, Finished(ok, a.recorded, a.now));
      RunAppend(c.nodes[b].queue, HandlerEvents(c, a, b), [Finished(ok, a.recorded, a.now)]);
    } else {
      assert StepEvents(c, a, b) == HandlerEvents(c, a, b);
    }
  }

  lemma StepIsQueueRun(c: Cluster, a: Action, b: string)
    requires MayStep(c, a) && b in c.nodes
    ensures b in Step(c, a).nodes && Legal(c.nodes[b].queue, StepEvents(c, a, b))
    ensures Run(c.nodes[b].queue, StepEvents(c, a, b)) == Step(c, a).nodes[b].queue
  {
    var n := c.nodes[a.at];
    match a {
      case Local(at, op, now) => LocalIsQueueRun(n, at, op, now);
      case Claims(at, now) => RunOne(n.queue, Claiming(now, ActivePeers(n), JoinedMeta(n)));
      case Sends(_, _, _, _, _) => SendIsQueueRun(c, a, b);
      case Restarts(_) => RunOne(n.queue, Restarted);
      case Repairs(at, peer, id, now) =>
        RunOne(n.queue, Enqueued(Ticket(peer, id, n.objects[id].filepath, n.objects[id].etag, Put), now));
      case _ =>
    }
  }

  /** The outbox events one node sees over a whole cluster run. */
  ghost function RunEvents(c: Cluster, run: seq<Action>, b: string): seq<Event>
    requires IsRun(c, run)
    decreases |run|
  {
    if run == [] then [] else StepEvents(c, run[0], b) + RunEvents(Step(c, run[0]), run[1..], b)
  }

  lemma {:induction false} NodeQueueIsQueueRun(c: Cluster, run: seq<Action>, b: string)
    requires IsRun(c, run) && b in c.nodes
    ensures b in Exec(c, run).nodes
    ensures Legal(c.nodes[b].queue, RunEvents(c, run, b))
    ensures Run(c.nodes[b].queue, RunEvents(c, run, b)) == Exec(c, run).nodes[b].queue
    decreases |run|
  {
    if run != [] {
      var d := Step(c, run[0]);
      StepIsQueueRun(c, run[0], b);
      NodeQueueIsQueueRun(d, run[1..], b);
      RunAppend(c.nodes[b].queue, StepEvents(c, run[0], b), RunEvents(d, run[1..], b));
    }
  }

  /** On every node of every cluster run no job is lost, and the IN_FLIGHT rows are the rest of its worker's batch and the
      jobs it was made to forget. */
  lemma NoJobLostAnywhere(c: Cluster, run: seq<Action>, b: string)
    requires Fresh(c) && IsRun(c, run) && b in c.nodes
    ensures b in Exec(c, run).nodes && Legal(EMPTY, RunEvents(c, run, b))
    ensures var a := Watch(START, RunEvents(c, run, b));
      a.q == Exec(c, run).nodes[b].queue && Accounted(a)
  {
    NodeQueueIsQueueRun(c, run, b);
    WatchIsRun(START, RunEvents(c, run, b));
    NoJobLost(RunEvents(c, run, b));
  }

  lemma StepStrands(c: Cluster, a: Action, b: string)
    requires MayStep(c, a) && b in c.nodes && Flight(c.nodes[b].queue)
    ensures b in Step(c, a).nodes && Flight(Step(c, a).nodes[b].queue) && Legal(c.nodes[b].queue, StepEvents(c, a, b))
    ensures Stranded(Step(c, a).nodes[b].queue) == Stranded(c.nodes[b].queue) + Dropped(c.nodes[b].queue, StepEvents(c, a, b))
  {
    StepIsQueueRun(c, a, b);
    DroppedJobsAreStranded(c.nodes[b].queue, StepEvents(c, a, b));
  }

  lemma UnrecordedDrops(c: Cluster, a: Action)
    requires MayStep(c, a) && a.Sends? && !a.recorded && Flight(c.nodes[a.at].queue)
    ensures Stranded(Step(c, a).nodes[a.at].queue) != {}
  {
    var q := c.nodes[a.at].queue;
    var job := q.batch[0];
    HandlerIsQueueRun(c, a, a.at);
    HandlerKeepsBatch(c, a.at, job, a.outcome, a.chunks, a.now);
    var handled := AfterHandler(c, job, a.outcome, a.chunks, a.now).0[a.at].queue;
    DroppedJobsAreStranded(q, HandlerEvents(c, a, a.at));
    FlightForget(handled);
    assert job.id in Stranded(Forget(handled));
  }

  /** A run that empties a node's outbox has recorded the outcome of every call of that node. */
  lemma {:induction false} EmptiedMeansRecorded(c: Cluster, run: seq<Action>, b: string)
    requires IsRun(c, run) && b in c.nodes && Flight(c.nodes[b].queue)
    requires b in Exec(c, run).nodes && Exec(c, run).nodes[b].queue.jobs == map[]
    ensures Stranded(c.nodes[b].queue) == {}
    ensures forall i :: 0 <= i < |run| && run[i].Sends? && run[i].at == b ==> run[i].recorded
    decreases |run|
  {
    if run != [] {
      StepStrands(c, run[0], b);
      EmptiedMeansRecorded(Step(c, run[0]), run[1..], b);
      if run[0].Sends? && run[0].at == b && !run[0].recorded { UnrecordedDrops(c, run[0]); }
    }
  }

  /** A stranded PUT also counts as waiting: in no cluster run does anti-entropy enqueue that object for that peer again. */
  lemma StrandedBlocksRepairs(c: Cluster, run: seq<Action>, b: string, i: nat)
    requires IsRun(c, run) && b in c.nodes && Flight(c.nodes[b].queue)
    requires i in Stranded(c.nodes[b].queue) && c.nodes[b].queue.jobs[i].op == Put
    ensures b in Exec(c, run).nodes
    ensures var job := c.nodes[b].queue.jobs[i]; var n := Exec(c, run).nodes[b];
      && i in Stranded(n.queue)
      && (forall id, now :: id in n.objects && n.objects[id].filepath == job.filepath ==> Repair(n, job.peer, id, now) == n)
  {
    var q := c.nodes[b].queue;
    NodeQueueIsQueueRun(c, run, b);
    StrandedKeepsJob(q, RunEvents(c, run, b), i);
    assert RepairQueued(Exec(c, run).nodes[b].queue, q.jobs[i].peer, q.jobs[i].filepath);
  }

  // ----- A drain counts down -----

  /** No uploads, purges, rehashes or repairs: only claims and sends, by any node. */
  predicate OnlyDelivers(run: seq<Action>) {
    forall i :: 0 <= i < |run| ==> run[i].Claims? || run[i].Sends?
  }

  /** The send was handled, its acknowledgement arrived, and the job was completed. */
  ghost predicate Acknowledged(c: Cluster, a: Action)
    requires MayStep(c, a) && a.Sends?
  {
    a.recorded && AfterHandler(c, c.nodes[a.at].queue.batch[0], a.outcome, a.chunks, a.now).1
  }

  /** Acknowledged sends of one node over a run. */
  ghost function AckCount(c: Cluster, run: seq<Action>, b: string): nat
    requires IsRun(c, run)
    decreases |run|
  {
    if run == [] then 0
    else (if run[0].Sends? && run[0].at == b && Acknowledged(c, run[0]) then 1 else 0) + AckCount(Step(c, run[0]), run[1..], b)
  }

  lemma {:induction false} FlightRun(q: Queue, es: seq<Event>)
    requires Flight(q) && Legal(q, es)
    ensures Flight(Run(q, es))
    decreases |es|
  {
    if es != [] {
      FlightStep(q, es[0]);
      FlightRun(Next(q, es[0]), es[1..]);
    }
  }

  lemma SendCountsDown(c: Cluster, a: Action, b: string)
    requires MayStep(c, a) && a.Sends? && b in c.nodes && Flight(c.nodes[b].queue)
    ensures b in Step(c, a).nodes
    ensures |Step(c, a).nodes[b].queue.jobs| == |c.nodes[b].queue.jobs| - (if a.at == b && Acknowledged(c, a) then 1 else 0)
  {
    var q := c.nodes[b].queue;
    var nodes := AfterHandler(c, c.nodes[a.at].queue.batch[0], a.outcome, a.chunks, a.now).0;
    HandlerKeepsBatch(c, b, c.nodes[a.at].queue.batch[0], a.outcome, a.chunks, a.now);
    var q' := Step(c, a).nodes[b].queue;
    if a.at == b && Acknowledged(c, a) {
      assert Held(q, q.batch[0]);
      assert q'.jobs.Keys == q.jobs.Keys - {q.batch[0].id};
    } else {
      assert q'.jobs.Keys == q.jobs.Keys;
    }
    assert |q.jobs| == |q.jobs.Keys| && |q'.jobs| == |q'.jobs.Keys|;
  }

  lemma ClaimCounts(c: Cluster, a: Action, b: string)
    requires MayStep(c, a) && a.Claims? && b in c.nodes
    ensures b in Step(c, a).nodes && |Step(c, a).nodes[b].queue.jobs| == |c.nodes[b].queue.jobs|
  {
    var q, q' := c.nodes[b].queue, Step(c, a).nodes[b].queue;
    assert q'.jobs.Keys == q.jobs.Keys;
    assert |q.jobs| == |q.jobs.Keys| && |q'.jobs| == |q'.jobs.Keys|;
  }

  lemma StepFlight(c: Cluster, a: Action, b: string)
    requires MayStep(c, a) && b in c.nodes && Flight(c.nodes[b].queue)
    ensures b in Step(c, a).nodes && Flight(Step(c, a).nodes[b].queue)
  {
    StepIsQueueRun(c, a, b);
    FlightRun(c.nodes[b].queue, StepEvents(c, a, b));
  }

  /** Receive handlers never enqueue: while nodes only deliver to each other, every node's outbox shrinks by exactly
      its acknowledged sends, so no more sends can be acknowledged than jobs were outstanding. */
  lemma {:induction false} DeliveryCountsDown(c: Cluster, run: seq<Action>, b: string)
    requires IsRun(c, run) && OnlyDelivers(run) && b in c.nodes && Flight(c.nodes[b].queue)
    ensures b in Exec(c, run).nodes
    ensures |Exec(c, run).nodes[b].queue.jobs| + AckCount(c, run, b) == |c.nodes[b].queue.jobs|
    decreases |run|
  {
    if run != [] {
      StepFlight(c, run[0], b);
      if run[0].Sends? { SendCountsDown(c, run[0], b); } else { ClaimCounts(c, run[0], b); }
      DeliveryCountsDown(Step(c, run[0]), run[1..], b);
    }
  }
}
