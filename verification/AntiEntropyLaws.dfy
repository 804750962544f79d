/** What one anti-entropy pass achieves: a drained outbox means healed peers, and it can be drained exactly when
    every repair is deliverable. */
module AntiEntropyLaws {
  import opened Basics
  import opened Outbox
  import opened Store
  import opened ClusterSteps
  import opened ClusterSafety
  import opened ClusterOutbox
  import opened AntiEntropy
  import opened AntiEntropyDrain
  import opened AntiEntropyHeal

  /** A pass about to begin on a node with an empty outbox. */
  ghost predicate Begins(x: Pass, c: Cluster) {
    && Inv(c) && TrueDigests(x, c) && c.nodes[x.self] == x.sender
    && x.sender.queue.jobs == map[] && x.sender.queue.batch == []
  }

  ghost function AfterPass(x: Pass, c: Cluster, order: seq<string>): Cluster {
    c.(nodes := c.nodes[x.self := RunOnce(x.sender, x.self, x.remotes, order, x.now)])
  }

  /** Only the worker of the repairing node acts: it claims and sends. */
  predicate OnlyWorks(x: Pass, run: seq<Action>) {
    forall i :: 0 <= i < |run| ==> run[i].at == x.self && (run[i].Claims? || run[i].Sends?)
  }

  /** And it can record the outcome of every call. */
  predicate OnlyDrains(x: Pass, run: seq<Action>) {
    forall i :: 0 <= i < |run| ==> run[i].at == x.self && (run[i].Claims? || (run[i].Sends? && run[i].recorded))
  }

  predicate Drained(x: Pass, c: Cluster) {
    x.self in c.nodes && c.nodes[x.self].queue.jobs == map[]
  }

  ghost predicate AllMet(x: Pass, c: Cluster) {
    forall p, id :: Wanted(x, p, id) ==>
      p in c.nodes && x.self in c.nodes && Met(c.nodes[x.self].queue, c.nodes[p], p, x.sender.objects[id].filepath)
  }

  // ----- The pass -----

  /** A repair due at once. */
  ghost predicate Prompt(q: Queue, now: int) {
    forall j :: j in q.jobs ==> q.jobs[j].nextRetry <= now
  }

  lemma JustifiedRepairs(x: Pass, job: Job)
    requires Justified(x.sender, job, x.remotes, x.now) && Compared(x.sender.peers, x.self, x.remotes, job.peer)
    ensures RepairsRow(x, job) && job.status == Pending && job.nextRetry == x.now
    ensures job.etag == x.sender.objects[job.objectId.value].etag
  {
  }

  lemma WantedIsNeeded(x: Pass, p: string, id: nat)
    requires Wanted(x, p, id)
    ensures Compared(x.sender.peers, x.self, x.remotes, p) && PathNeeded(x.sender, p, x.remotes[p], x.sender.objects[id].filepath)
  {
    LacksIsTested(x.sender, p, x.remotes[p], id);
  }

  lemma PassQueuesWanted(x: Pass, c: Cluster, order: seq<string>)
    requires Begins(x, c) && forall fp :: fp in order <==> fp in ActivePaths(x.sender.objects)
    ensures var q := RunOnce(x.sender, x.self, x.remotes, order, x.now).queue;
      forall p, id :: Wanted(x, p, id) ==> RepairQueued(q, p, x.sender.objects[id].filepath)
  {
    var n := x.sender;
    var q := RunOnce(n, x.self, x.remotes, order, x.now).queue;
    RunOnceEnqueuesExactly(n, x.self, x.remotes, order, x.now);
    forall p, id | Wanted(x, p, id) ensures RepairQueued(q, p, n.objects[id].filepath) {
      WantedIsNeeded(x, p, id);
      WaitingIsTested(q, p, n.objects[id].filepath);
    }
  }

  lemma PassQueue(x: Pass, c: Cluster, order: seq<string>)
    requires Begins(x, c) && forall fp :: fp in order <==> fp in ActivePaths(x.sender.objects)
    ensures var m := RunOnce(x.sender, x.self, x.remotes, order, x.now);
      && m == x.sender.(queue := m.queue) && m.queue.batch == [] && RepairQueue(x, m.queue) && Prompt(m.queue, x.now)
      && forall p, id :: Wanted(x, p, id) ==> RepairQueued(m.queue, p, x.sender.objects[id].filepath)
  {
    var n := x.sender;
    var m := RunOnce(n, x.self, x.remotes, order, x.now);
    RunOnceEnqueuesExactly(n, x.self, x.remotes, order, x.now);
    forall j | j in m.queue.jobs ensures RepairsRow(x, m.queue.jobs[j]) && m.queue.jobs[j].status == Pending && m.queue.jobs[j].nextRetry == x.now {
      JustifiedRepairs(x, m.queue.jobs[j]);
    }
    PassQueuesWanted(x, c, order);
  }

  lemma RepairQueueTrue(x: Pass, q: Queue, origin: map<string, Bytes>)
    requires RowsTrue(x.sender.objects, origin) && q.batch == []
    requires forall j :: j in q.jobs ==> RepairsRow(x, q.jobs[j]) && q.jobs[j].etag == x.sender.objects[q.jobs[j].objectId.value].etag
    ensures QueueTrue(q, origin)
  {
    forall i | i in q.jobs ensures Names(q.jobs[i].filepath, q.jobs[i].etag, origin) {
      assert RowTrue(x.sender.objects[q.jobs[i].objectId.value], origin);
    }
  }

  lemma PassEtags(x: Pass, c: Cluster, order: seq<string>)
    requires Begins(x, c) && forall fp :: fp in order <==> fp in ActivePaths(x.sender.objects)
    ensures var q := RunOnce(x.sender, x.self, x.remotes, order, x.now).queue;
      forall j :: j in q.jobs ==> RepairsRow(x, q.jobs[j]) && q.jobs[j].etag == x.sender.objects[q.jobs[j].objectId.value].etag
  {
    var m := RunOnce(x.sender, x.self, x.remotes, order, x.now);
    RunOnceEnqueuesExactly(x.sender, x.self, x.remotes, order, x.now);
    forall j | j in m.queue.jobs
      ensures RepairsRow(x, m.queue.jobs[j]) && m.queue.jobs[j].etag == x.sender.objects[m.queue.jobs[j].objectId.value].etag
    {
      JustifiedRepairs(x, m.queue.jobs[j]);
    }
  }

  lemma PassKeepsInv(x: Pass, c: Cluster, order: seq<string>)
    requires Begins(x, c) && forall fp :: fp in order <==> fp in ActivePaths(x.sender.objects)
    ensures Inv(AfterPass(x, c, order))
  {
    var m := RunOnce(x.sender, x.self, x.remotes, order, x.now);
    PassQueue(x, c, order);
    PassEtags(x, c, order);
    RepairQueueTrue(x, m.queue, c.origin);
    UpdateKeepsInv(c, x.self, m);
  }

  lemma NothingGainedYet(x: Pass, nodes: map<string, Node>, sender: Node)
    ensures OthersGain(x, nodes, nodes[x.self := sender])
  {
  }

  lemma PassUnderway(x: Pass, c: Cluster, d: Cluster, m: Node)
    requires TrueDigests(x, c) && Sound(x.sender) && d == c.(nodes := c.nodes[x.self := m])
    requires m == x.sender.(queue := m.queue) && RepairQueue(x, m.queue)
    ensures Underway(x, c, d)
  {
    NothingGainedYet(x, c.nodes, m);
  }

  lemma PassStartsDrain(x: Pass, c: Cluster, order: seq<string>)
    requires Begins(x, c) && forall fp :: fp in order <==> fp in ActivePaths(x.sender.objects)
    ensures OnCourse(x, c, AfterPass(x, c, order))
  {
    PassQueue(x, c, order);
    PassKeepsInv(x, c, order);
    PassUnderway(x, c, AfterPass(x, c, order), RunOnce(x.sender, x.self, x.remotes, order, x.now));
  }

  // ----- Healing -----

  lemma StepKeepsAllMet(x: Pass, c0: Cluster, c: Cluster, a: Action)
    requires Draining(x, c0, c) && DrainStep(x, c, a) && AllMet(x, c)
    ensures AllMet(x, Step(c, a))
  {
    forall p, id | Wanted(x, p, id)
      ensures p in Step(c, a).nodes && x.self in Step(c, a).nodes
      ensures Met(Step(c, a).nodes[x.self].queue, Step(c, a).nodes[p], p, x.sender.objects[id].filepath)
    {
      StepKeepsMet(x, c0, c, a, p, x.sender.objects[id].filepath);
    }
  }

  lemma FirstDrains(x: Pass, c: Cluster, run: seq<Action>)
    requires IsRun(c, run) && OnlyDrains(x, run) && run != []
    ensures DrainStep(x, c, run[0]) && IsRun(Step(c, run[0]), run[1..]) && OnlyDrains(x, run[1..])
    ensures Exec(c, run) == Exec(Step(c, run[0]), run[1..])
  {
  }

  /** What a drain keeps. */
  ghost predicate OnCourse(x: Pass, c0: Cluster, c: Cluster) {
    Draining(x, c0, c) && AllMet(x, c)
  }

  lemma StepStaysOnCourse(x: Pass, c0: Cluster, c: Cluster, a: Action)
    requires OnCourse(x, c0, c) && DrainStep(x, c, a)
    ensures OnCourse(x, c0, Step(c, a))
  {
    StepKeepsDraining(x, c0, c, a);
    StepKeepsAllMet(x, c0, c, a);
  }

  lemma {:induction false} DrainStaysOnCourse(x: Pass, c0: Cluster, c: Cluster, run: seq<Action>)
    requires OnCourse(x, c0, c) && IsRun(c, run) && OnlyDrains(x, run)
    ensures OnCourse(x, c0, Exec(c, run))
    decreases |run|
  {
    if run != [] {
      FirstDrains(x, c, run);
      StepStaysOnCourse(x, c0, c, run[0]);
      DrainStaysOnCourse(x, c0, Step(c, run[0]), run[1..]);
    }
  }

  /** A row the peer should have: locally active, in a bucket that replicates to a peer that was compared. */
  ghost predicate Due(x: Pass, p: string, id: nat) {
    && Compared(x.sender.peers, x.self, x.remotes, p)
    && id in x.sender.objects && Active(x.sender.objects[id])
    && x.sender.objects[id].bucket in x.sender.buckets
    && (x.sender.buckets[x.sender.objects[id].bucket].replicateToAll || p in x.sender.buckets[x.sender.objects[id].bucket].nodes)
  }

  /** The peer has the row, and its blob exactly if it was repaired or had the blob before; what it has is the original. */
  ghost predicate HasDue(x: Pass, before: Node, after: Node, p: string, id: nat, origin: map<string, Bytes>)
    requires Due(x, p, id)
  {
    var r := x.sender.objects[id];
    && PathTaken(after.objects, r.filepath)
    && (r.filepath in after.blobs <==>
          (r.filepath in x.remotes[p] ==> x.remotes[p][r.filepath] != r.etag) || r.filepath in before.blobs)
    && (r.filepath in after.blobs ==> r.filepath in origin && after.blobs[r.filepath] == origin[r.filepath])
  }

  ghost predicate Healed(x: Pass, c0: Cluster, d: Cluster) {
    forall p, id :: Due(x, p, id) ==> p in c0.nodes && p in d.nodes && HasDue(x, c0.nodes[p], d.nodes[p], p, id, d.origin)
  }

  lemma AgreedStays(x: Pass, p: string, before: Node, after: Node, id: nat)
    requires Due(x, p, id) && !Wanted(x, p, id) && Gains(x, p, before, after) && UniquePaths(x.sender.objects)
    requires x.remotes[p] == DigestMap(before.objects)
    ensures PathTaken(after.objects, x.sender.objects[id].filepath)
    ensures x.sender.objects[id].filepath in after.blobs <==> x.sender.objects[id].filepath in before.blobs
  {
    var fp := x.sender.objects[id].filepath;
    assert fp in ActivePaths(before.objects);
    var i :| i in before.objects && Active(before.objects[i]) && before.objects[i].filepath == fp;
    assert after.objects[i].filepath == fp;
    assert !WantedPath(x, p, fp);
  }

  lemma DueIsThere(x: Pass, before: Node, after: Node, q: Queue, p: string, id: nat, origin: map<string, Bytes>)
    requires Due(x, p, id) && Gains(x, p, before, after) && BlobsTrue(after.blobs, origin)
    requires UniquePaths(x.sender.objects) && x.remotes[p] == DigestMap(before.objects) && q.jobs == map[]
    requires Wanted(x, p, id) ==> Met(q, after, p, x.sender.objects[id].filepath)
    ensures HasDue(x, before, after, p, id, origin)
  {
    if !Wanted(x, p, id) { AgreedStays(x, p, before, after, id); }
  }

  lemma DrainedIsHealed(x: Pass, c0: Cluster, d: Cluster)
    requires Draining(x, c0, d) && AllMet(x, d) && Drained(x, d)
    ensures Healed(x, c0, d)
  {
    forall p, id | Due(x, p, id) ensures p in d.nodes && HasDue(x, c0.nodes[p], d.nodes[p], p, id, d.origin) {
      assert Gains(x, p, c0.nodes[p], d.nodes[p]);
      DueIsThere(x, c0.nodes[p], d.nodes[p], d.nodes[x.self].queue, p, id, d.origin);
    }
  }

  lemma EmptyingDrains(x: Pass, c0: Cluster, c: Cluster, run: seq<Action>)
    requires Underway(x, c0, c) && IsRun(c, run) && OnlyWorks(x, run) && Drained(x, Exec(c, run))
    ensures OnlyDrains(x, run)
  {
    EmptiedMeansRecorded(c, run, x.self);
  }

  /** From an empty outbox, one pass followed by any work that empties the outbox, through whatever failures and
      retries, leaves every locally active object of a bucket that replicates to a compared peer in that peer's table.
      Its blob is there, with the original bytes, exactly if the digests disagreed or the peer already had it. */
  lemma AntiEntropyHeals(x: Pass, c: Cluster, order: seq<string>, run: seq<Action>)
    requires Begins(x, c) && forall fp :: fp in order <==> fp in ActivePaths(x.sender.objects)
    requires IsRun(AfterPass(x, c, order), run) && OnlyWorks(x, run) && Drained(x, Exec(AfterPass(x, c, order), run))
    ensures Healed(x, c, Exec(AfterPass(x, c, order), run))
  {
    PassStartsDrain(x, c, order);
    EmptyingDrains(x, c, AfterPass(x, c, order), run);
    DrainStaysOnCourse(x, c, AfterPass(x, c, order), run);
    DrainedIsHealed(x, c, Exec(AfterPass(x, c, order), run));
  }
}
