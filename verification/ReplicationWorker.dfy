/** The outbox worker over running nodes: a tick claims a batch and disposes of every job of it, and is one of the
    runs the cluster theorems speak about. */
module ReplicationWorker {
  import opened Basics
  import opened Outbox
  import opened OutboxAudit
  import opened Store
  import opened ClusterSteps
  import opened ClusterSafety
  import opened ClusterOutbox
  import opened ReplicationLaws
  import opened NodeServers
  import opened ReplicationServer

  /** What happens to one call: its outcome, where reading the file fails if it does, whether the outcome can be recorded,
      and the time. */
  datatype Call = Call(outcome: Outcome, readFault: Option<nat>, recorded: bool, at: int)

  /** Every server is known by its own id, so no two names share one. */
  ghost predicate Wired(servers: map<string, NodeServer>) {
    forall a :: a in servers ==> servers[a].self == a
  }

  ghost function States(servers: map<string, NodeServer>): map<string, Node>
    reads servers.Values
  {
    map a | a in servers :: servers[a].State()
  }

  ghost function ClusterOf(servers: map<string, NodeServer>, origin: map<string, Bytes>): Cluster
    reads servers.Values
  {
    Cluster(States(servers), origin)
  }

  /** A PUT carries the whole file it is sent for, or nothing when that is gone; a read that fails ends it after that many
      buffers. */
  ghost predicate Carries(n: Node, job: Claimed, call: Call, chunks: seq<Bytes>) {
    job.op == Put ==>
      var fp := if job.meta == None then job.filepath else job.meta.value.filepath;
      && MaySend(n, fp, chunks)
      && Flatten(chunks) == if fp !in n.blobs then []
                            else if call.readFault == None || |n.blobs[fp]| <= call.readFault.value * 65536 then n.blobs[fp]
                            else n.blobs[fp][..call.readFault.value * 65536]
  }

  /** The RPC of `process_job` at its receiver. */
  method CallReceiver(sender: NodeServer, receiver: NodeServer, job: Claimed, call: Call) returns (ok: bool, chunks: seq<Bytes>)
    requires Sound(receiver.State())
    modifies receiver
    ensures Carries(old(sender.State()), job, call, chunks)
    ensures (receiver.State(), ok) == Handle(old(receiver.State()), job, chunks, call.at)
  {
    chunks := [];
    match job.op {
      case Put =>
        chunks := sender.StreamBlob(SourcePath(job), call.readFault);
        StreamCarriesMessage(job, chunks, call.at);
        ok := ReplicateObject(receiver, [Metadata(HeaderFor(job, call.at))] + Payloads(chunks));
      case Delete =>
        DeleteObject(receiver, job.filepath);
        ok := true;
    }
  }

  /** One server changed its state, and the others did not. */
  ghost predicate OnlyMoves(before: map<string, Node>, after: map<string, Node>, at: string, n: Node) {
    after == before[at := n]
  }

  /** The same, seen from the whole cluster. */
  method CallAt(servers: map<string, NodeServer>, at: string, job: Claimed, call: Call) returns (done: bool, chunks: seq<Bytes>)
    requires Wired(servers) && at in servers && job.peer in servers && Sound(servers[job.peer].State())
    modifies servers.Values
    ensures Carries(old(servers[at].State()), job, call, chunks)
    ensures OnlyMoves(old(States(servers)), States(servers), job.peer, Handle(old(servers[job.peer].State()), job, chunks, call.at).0)
    ensures done == Handle(old(servers[job.peer].State()), job, chunks, call.at).1
  {
    ghost var before := States(servers);
    done, chunks := CallReceiver(servers[at], servers[job.peer], job, call);
    ghost var m := servers[job.peer].State();
    assert States(servers) == before[job.peer := m];
  }

  /** `process_job`: connecting fails when the peer is unknown or unreached; an acknowledgement can be lost. */
  method ProcessJob(servers: map<string, NodeServer>, at: string, job: Claimed, call: Call, ghost origin: map<string, Bytes>)
    returns (ok: bool, chunks: seq<Bytes>)
    requires Wired(servers) && at in servers && Inv(ClusterOf(servers, origin))
    modifies servers.Values
    ensures Carries(old(servers[at].State()), job, call, chunks)
    ensures (States(servers), ok) == AfterHandler(old(ClusterOf(servers, origin)), job, call.outcome, chunks, call.at)
  {
    if call.outcome.Unreached? || job.peer !in servers {
      chunks := servers[at].StreamBlob(SourcePath(job), call.readFault);
      return false, chunks;
    }
    assert Sound(ClusterOf(servers, origin).nodes[job.peer]);
    var done;
    done, chunks := CallAt(servers, at, job, call);
    ok := done && call.outcome.Acked?;
  }

  /** The worker's record of what it did with the head of its batch. A statement that fails is only logged. */
  method Dispose(s: NodeServer, ok: bool, recorded: bool, now: int)
    requires s.batch != []
    modifies s`batch, s`jobs
    ensures s.State() == old(s.State()).(queue := Disposed(old(s.State()).queue, ok, recorded, now))
  {
    var id := s.batch[0].id;
    s.batch := s.batch[1..];
    if !recorded { return; }
    if ok { s.CompleteOutboxJob(id); } else { s.FailOutboxJob(id, now); }
  }

  /** The same, seen from the whole cluster. */
  method DisposeAt(servers: map<string, NodeServer>, at: string, ok: bool, recorded: bool, now: int)
    requires Wired(servers) && at in servers && servers[at].batch != []
    modifies servers.Values
    ensures var n := old(States(servers))[at];
      States(servers) == old(States(servers))[at := n.(queue := Disposed(n.queue, ok, recorded, now))]
  {
    ghost var before := States(servers);
    Dispose(servers[at], ok, recorded, now);
    assert States(servers) == before[at := servers[at].State()];
  }

  ghost function SendAction(at: string, call: Call, chunks: seq<Bytes>): Action {
    Sends(at, call.outcome, call.recorded, chunks, call.at)
  }

  /** The step is the send of the head of the batch of `at`, with this outcome, record and time, and a faithful payload. */
  ghost predicate Performs(c: Cluster, a: Action, at: string, call: Call) {
    && a.Sends? && a.at == at && a.outcome == call.outcome && a.recorded == call.recorded && a.now == call.at
    && MayStep(c, a) && Carries(c.nodes[at], c.nodes[at].queue.batch[0], call, a.chunks)
  }

  /** One send per call, in their order. */
  ghost predicate PerformsAll(c: Cluster, run: seq<Action>, at: string, calls: seq<Call>)
    requires IsRun(c, run)
    decreases |run|
  {
    run == [] || (calls != [] && Performs(c, run[0], at, calls[0]) && PerformsAll(Step(c, run[0]), run[1..], at, calls[1..]))
  }

  lemma {:induction false} PerformsSnoc(c: Cluster, run: seq<Action>, at: string, calls: seq<Call>, a: Action)
    requires IsRun(c, run) && PerformsAll(c, run, at, calls) && |run| < |calls| && Performs(Exec(c, run), a, at, calls[|run|])
    ensures IsRun(c, run + [a]) && PerformsAll(c, run + [a], at, calls)
    ensures Exec(c, run + [a]) == Step(Exec(c, run), a)
    decreases |run|
  {
    if run == [] {
      assert [] + [a] == [a] && [a][1..] == [];
    } else {
      assert (run + [a])[1..] == run[1..] + [a] && (run + [a])[0] == run[0];
      PerformsSnoc(Step(c, run[0]), run[1..], at, calls[1..], a);
    }
  }

  /** Handling and disposing of the head of a batch is one send of the cluster. */
  lemma HandledIsSend(c: Cluster, at: string, call: Call, chunks: seq<Bytes>, handled: map<string, Node>, ok: bool)
    requires Inv(c) && at in c.nodes && c.nodes[at].queue.batch != []
    requires var job := c.nodes[at].queue.batch[0];
      && (job.op == Put ==> MaySend(c.nodes[at], SourcePath(job), chunks))
      && (handled, ok) == AfterHandler(c, job, call.outcome, chunks, call.at)
    ensures at in handled && handled[at].queue.batch == c.nodes[at].queue.batch
    ensures MayStep(c, SendAction(at, call, chunks)) && Inv(Step(c, SendAction(at, call, chunks)))
    ensures Step(c, SendAction(at, call, chunks)) ==
              c.(nodes := handled[at := handled[at].(queue := Disposed(handled[at].queue, ok, call.recorded, call.at))])
  {
    HandlerKeepsBatch(c, at, c.nodes[at].queue.batch[0], call.outcome, chunks, call.at);
    StepKeepsInv(c, SendAction(at, call, chunks));
  }

  /** One pass of the inner loop. */
  method WorkJob(servers: map<string, NodeServer>, at: string, call: Call, ghost origin: map<string, Bytes>) returns (ghost chunks: seq<Bytes>)
    requires Wired(servers) && at in servers && servers[at].batch != [] && Inv(ClusterOf(servers, origin))
    modifies servers.Values
    ensures Performs(old(ClusterOf(servers, origin)), SendAction(at, call, chunks), at, call)
    ensures ClusterOf(servers, origin) == Step(old(ClusterOf(servers, origin)), SendAction(at, call, chunks))
    ensures Inv(ClusterOf(servers, origin)) && servers[at].batch == old(servers[at].batch)[1..]
  {
    ghost var before := ClusterOf(servers, origin);
    var ok, sent := ProcessJob(servers, at, servers[at].batch[0], call, origin);
    ghost var handled := States(servers);
    chunks := sent;
    HandledIsSend(before, at, call, chunks, handled, ok);
    DisposeAt(servers, at, ok, call.recorded, call.at);
  }

  lemma TakeIsBounded(s: seq<nat>, k: nat)
    ensures |Take(s, k)| <= k
  {
  }

  lemma BatchIsBounded(q: Queue, now: int, active: set<string>, meta: map<nat, Meta>)
    ensures |Claim(q, now, active, meta).batch| <= BATCH_LIMIT
  {
    TakeIsBounded(Ascending(EligibleIds(q, now, active), q.next), BATCH_LIMIT);
  }

  lemma ClaimIsStep(c: Cluster, at: string, now: int)
    requires Inv(c) && at in c.nodes && c.nodes[at].queue.batch == []
    ensures MayStep(c, Claims(at, now)) && Inv(Step(c, Claims(at, now)))
    ensures Step(c, Claims(at, now)) == c.(nodes := c.nodes[at := ClaimJobs(c.nodes[at], now)])
  {
    StepKeepsInv(c, Claims(at, now));
  }

  /** The claim of a tick, seen from the whole cluster. */
  method ClaimAt(servers: map<string, NodeServer>, at: string, now: int)
    requires Wired(servers) && at in servers && servers[at].batch == []
    modifies servers[at]
    ensures OnlyMoves(old(States(servers)), States(servers), at, servers[at].State())
    ensures servers[at].State() == ClaimJobs(old(servers[at].State()), now)
  {
    servers[at].ClaimOutboxJobs(now);
  }

  /** The inner loop: work the batch off, job by job and call by call. */
  method WorkBatch(servers: map<string, NodeServer>, at: string, calls: seq<Call>, ghost origin: map<string, Bytes>)
    returns (ghost run: seq<Action>)
    requires Wired(servers) && at in servers && Inv(ClusterOf(servers, origin)) && |servers[at].batch| <= |calls|
    modifies servers.Values
    ensures IsRun(old(ClusterOf(servers, origin)), run) && ClusterOf(servers, origin) == Exec(old(ClusterOf(servers, origin)), run)
    ensures PerformsAll(old(ClusterOf(servers, origin)), run, at, calls)
    ensures servers[at].batch == [] && |run| == |old(servers[at].batch)|
  {
    ghost var start := ClusterOf(servers, origin);
    run := [];
    var i := 0;
    while servers[at].batch != []
      invariant 0 <= i && i + |servers[at].batch| == |old(servers[at].batch)| && |run| == i
      invariant IsRun(start, run) && ClusterOf(servers, origin) == Exec(start, run) && PerformsAll(start, run, at, calls)
      invariant Inv(ClusterOf(servers, origin))
      decreases |servers[at].batch|
    {
      ghost var chunks := WorkJob(servers, at, calls[i], origin);
      PerformsSnoc(start, run, at, calls, SendAction(at, calls[i], chunks));
      run := run + [SendAction(at, calls[i], chunks)];
      i := i + 1;
    }
  }

  /** One tick of `run_replication_worker`: claim at most fifty jobs and dispose of each, whatever becomes of its call and
      of the record of it. Seen from the cluster it is the claim and then one send per claimed job, exactly as the calls
      went, so the cluster theorems hold of it; it leaves no batch behind. */
  method Tick(servers: map<string, NodeServer>, at: string, calls: seq<Call>, now: int, ghost origin: map<string, Bytes>)
    returns (ghost sends: seq<Action>)
    requires Wired(servers) && at in servers && servers[at].batch == [] && Inv(ClusterOf(servers, origin)) && |calls| >= BATCH_LIMIT
    modifies servers.Values
    ensures MayStep(old(ClusterOf(servers, origin)), Claims(at, now))
    ensures var claimed := Step(old(ClusterOf(servers, origin)), Claims(at, now));
      && at in claimed.nodes && |sends| == |claimed.nodes[at].queue.batch| <= 50
      && IsRun(claimed, sends) && PerformsAll(claimed, sends, at, calls)
      && ClusterOf(servers, origin) == Exec(claimed, sends)
    ensures servers[at].batch == []
  {
    ghost var start := ClusterOf(servers, origin);
    ClaimIsStep(start, at, now);
    ghost var n := servers[at].State();
    BatchIsBounded(n.queue, now, ActivePeers(n), JoinedMeta(n));
    ClaimAt(servers, at, now);
    assert ClusterOf(servers, origin) == Step(start, Claims(at, now));
    sends := WorkBatch(servers, at, calls, origin);
  }

  // ----- What a tick achieves -----

  /** Every send of the run is accepted at its peer. */
  ghost predicate AllAccepted(c: Cluster, run: seq<Action>)
    requires IsRun(c, run)
    decreases |run|
  {
    run == [] || (run[0].Sends? && Accepted(c, run[0]) && AllAccepted(Step(c, run[0]), run[1..]))
  }

  /** The sends that work a batch off, all of them accepted and recorded, complete exactly its jobs. */
  lemma {:induction false} CleanBatchCompletes(c: Cluster, sends: seq<Action>, at: string, calls: seq<Call>)
    requires at in c.nodes && Flight(c.nodes[at].queue) && |sends| == |c.nodes[at].queue.batch|
    requires IsRun(c, sends) && PerformsAll(c, sends, at, calls) && AllAccepted(c, sends)
    requires forall i :: 0 <= i < |sends| && i < |calls| ==> calls[i].recorded
    ensures at in Exec(c, sends).nodes
    ensures forall i :: i in Exec(c, sends).nodes[at].queue.jobs <==> i in c.nodes[at].queue.jobs && !InBatch(c.nodes[at].queue, i)
    decreases |sends|
  {
    var q := c.nodes[at].queue;
    if sends != [] {
      var d := Step(c, sends[0]);
      assert Held(q, q.batch[0]);
      SendFate(c, sends[0]);
      StepFlight(c, sends[0], at);
      assert forall k :: 0 <= k < |q.batch| - 1 ==> q.batch[1..][k] == q.batch[k + 1];
      CleanBatchCompletes(d, sends[1..], at, calls[1..]);
      BatchAfterHead(q, true, 0);
      SameBatch(d.nodes[at].queue, Forget(q));
    }
  }

  lemma SameBatch(q: Queue, r: Queue)
    requires q.batch == r.batch
    ensures forall i :: InBatch(q, i) <==> InBatch(r, i)
  {
  }
}
