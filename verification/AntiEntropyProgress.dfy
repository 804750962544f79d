/** The outbox can be drained after an anti-entropy pass exactly when every repair is deliverable. */
module AntiEntropyProgress {
  import opened Basics
  import opened Hashing
  import opened Outbox
  import opened OutboxAudit
  import opened Store
  import opened ClusterSteps
  import opened ClusterSafety
  import opened AntiEntropy
  import opened AntiEntropyDrain
  import opened AntiEntropyHeal
  import opened AntiEntropyLaws

  /** The pair cannot be delivered as the pass begins. */
  ghost predicate Undeliverable(x: Pass, c0: Cluster, p: string, id: nat) {
    Wanted(x, p, id) && p in c0.nodes && !(Streamable(x, id, c0.origin) && Admissible(x, c0.nodes[p], id))
  }

  ghost predicate AllDeliverable(x: Pass, c0: Cluster) {
    forall p, id :: !Undeliverable(x, c0, p, id)
  }

  /** A send in which nothing fails: the whole blob is streamed and the acknowledgement arrives. */
  ghost predicate CleanSend(c: Cluster, a: Action) {
    && a.Sends? && a.outcome.Acked? && a.recorded && a.at in c.nodes && c.nodes[a.at].queue.batch != []
    && var fp := SourcePath(c.nodes[a.at].queue.batch[0]);
       Flatten(a.chunks) == if fp in c.nodes[a.at].blobs then c.nodes[a.at].blobs[fp] else []
  }

  lemma SourceOfHead(x: Pass, c0: Cluster, c: Cluster) returns (id: nat)
    requires Underway(x, c0, c) && c.nodes[x.self].queue.batch != []
    ensures var head := c.nodes[x.self].queue.batch[0];
      && Wanted(x, head.peer, id) && SourcePath(head) == head.filepath == x.sender.objects[id].filepath && head.op == Put
  {
    id := HeadRepairs(x, c0, c.nodes[x.self].queue);
  }

  /** The row a send repairs is determined by its path. */
  lemma SameRow(x: Pass, p: string, q: string, i: nat, j: nat)
    requires Sound(x.sender) && Wanted(x, p, i) && Wanted(x, q, j) && x.sender.objects[i].filepath == x.sender.objects[j].filepath
    ensures i == j
  {
  }

  lemma NodeOf(c: Cluster, b: string)
    requires Inv(c) && b in c.nodes
    ensures Sound(c.nodes[b]) && BlobsTrue(c.nodes[b].blobs, c.origin) && RowsTrue(c.nodes[b].objects, c.origin)
  {
  }

  /** Only the original bytes carry the row's etag. */
  lemma RowDigest(x: Pass, id: nat, origin: map<string, Bytes>, chunks: seq<Bytes>)
    requires RowsTrue(x.sender.objects, origin) && id in x.sender.objects
    ensures var r := x.sender.objects[id];
      r.filepath in origin && (Digest(r.etagType, Flatten(chunks)) == r.etag <==> Flatten(chunks) == origin[r.filepath])
  {
    assert RowTrue(x.sender.objects[id], origin);
  }

  /** A reached send is accepted exactly when its payload is the original and the receiver admits the row. */
  lemma SendAccepted(x: Pass, c: Cluster, a: Action, d: Cluster, id: nat, got: Node, ok: bool)
    requires Inv(c) && Inv(d) && Sound(x.sender) && x.self in c.nodes && c.nodes[x.self].objects == x.sender.objects
    requires a.Sends? && !a.outcome.Unreached? && c.nodes[x.self].queue.batch != []
    requires Repairing(x, c, a, d, id, got, ok)
    ensures var p := c.nodes[x.self].queue.batch[0].peer;
      && x.sender.objects[id].filepath in c.origin
      && (ok <==> Flatten(a.chunks) == c.origin[x.sender.objects[id].filepath] && Admissible(x, c.nodes[p], id))
  {
    var p := c.nodes[x.self].queue.batch[0].peer;
    NodeOf(d, p);
    NodeOf(c, p);
    NodeOf(c, x.self);
    RowDigest(x, id, c.origin, a.chunks);
    assert d.nodes[p] == got;
    AdmissibleIsAccepted(x, c.nodes[p], id, a.chunks, got, ok);
  }

  lemma AdmissibleNow(x: Pass, c0: Cluster, c: Cluster, p: string, id: nat)
    requires Draining(x, c0, c) && Inv(c0) && Wanted(x, p, id) && p in c0.nodes && Admissible(x, c0.nodes[p], id)
    ensures Admissible(x, c.nodes[p], id)
  {
    assert Gains(x, p, c0.nodes[p], c.nodes[p]);
    AdmissibleStays(x, p, c0.nodes[p], c.nodes[p], id);
  }

  lemma CleanPayload(x: Pass, c0: Cluster, c: Cluster, a: Action, id: nat)
    requires Draining(x, c0, c) && DrainStep(x, c, a) && CleanSend(c, a)
    requires var head := c.nodes[x.self].queue.batch[0]; Wanted(x, head.peer, id) && head.filepath == x.sender.objects[id].filepath
    requires Streamable(x, id, c.origin)
    ensures x.sender.objects[id].filepath in c.origin && Flatten(a.chunks) == c.origin[x.sender.objects[id].filepath]
  {
    var _ := SourceOfHead(x, c0, c);
    NodeOf(c, x.self);
    RowDigest(x, id, c.origin, a.chunks);
  }

  /** When all is deliverable, every clean send is accepted and takes one job off the outbox. */
  lemma CleanSendShrinks(x: Pass, c0: Cluster, c: Cluster, a: Action)
    requires Draining(x, c0, c) && Inv(c0) && AllDeliverable(x, c0) && DrainStep(x, c, a) && CleanSend(c, a)
    ensures x.self in Step(c, a).nodes
    ensures var q := c.nodes[x.self].queue;
      var q' := Step(c, a).nodes[x.self].queue;
      q' == Finish(q, true, a.now) && |q'.jobs| == |q.jobs| - 1
  {
    var id, got, ok := SendRepairs(x, c0, c, a);
    var p := c.nodes[x.self].queue.batch[0].peer;
    assert !Undeliverable(x, c0, p, id);
    AdmissibleNow(x, c0, c, p, id);
    CleanPayload(x, c0, c, a, id);
    StepKeepsInv(c, a);
    SendAccepted(x, c, a, Step(c, a), id, got, ok);
    FinishCounts(c.nodes[x.self].queue, true, a.now);
  }

  // ----- A drain exists -----

  lemma PeerIsActive(x: Pass, p: string)
    requires Compared(x.sender.peers, x.self, x.remotes, p)
    ensures p in ActivePeers(x.sender)
  {
    var k :| 0 <= k < |x.sender.peers| && x.sender.peers[k] == Peer(p, true);
  }

  /** Waiting repairs can be claimed: their peers are active and they are due. */
  lemma SomethingToClaim(x: Pass, q: Queue, now: int)
    requires RepairQueue(x, q) && q.batch == [] && q.jobs != map[] && Prompt(q, now)
    ensures Claim(q, now, ActivePeers(x.sender), JoinedMeta(x.sender)).batch != []
  {
    var active := ActivePeers(x.sender);
    var j :| j in q.jobs;
    assert RepairsRow(x, q.jobs[j]);
    PeerIsActive(x, q.jobs[j].peer);
    assert !InBatch(q, j);
    assert j !in Stranded(q);
    assert j in EligibleIds(q, now, active);
    ClaimTakesOldest(q, now, active);
  }

  lemma ClaimKeepsCount(q: Queue, now: int, active: set<string>, meta: map<nat, Meta>)
    ensures |Claim(q, now, active, meta).jobs| == |q.jobs|
    ensures Prompt(q, now) ==> Prompt(Claim(q, now, active, meta), now)
  {
    var q' := Claim(q, now, active, meta);
    assert q'.jobs.Keys == q.jobs.Keys && |q.jobs| == |q.jobs.Keys| && |q'.jobs| == |q'.jobs.Keys|;
  }

  lemma ClaimStep(x: Pass, c0: Cluster, c: Cluster, now: int)
    requires Underway(x, c0, c) && c.nodes[x.self].queue.batch == []
    ensures MayStep(c, Claims(x.self, now))
    ensures Step(c, Claims(x.self, now)).nodes[x.self].queue == Claim(c.nodes[x.self].queue, now, ActivePeers(x.sender), JoinedMeta(x.sender))
  {
    ClaimedNodes(x, c, Claims(x.self, now));
  }

  /** The clean send of the head of the batch. */
  ghost function CleanAction(x: Pass, c: Cluster, now: int): Action
    requires x.self in c.nodes && c.nodes[x.self].queue.batch != []
  {
    var fp := SourcePath(c.nodes[x.self].queue.batch[0]);
    Sends(x.self, Acked, true, if fp in c.nodes[x.self].blobs then [c.nodes[x.self].blobs[fp]] else [], now)
  }

  lemma CleanActionIsClean(x: Pass, c: Cluster, now: int)
    requires x.self in c.nodes && c.nodes[x.self].queue.batch != []
    ensures MayStep(c, CleanAction(x, c, now)) && CleanSend(c, CleanAction(x, c, now))
  {
    var fp := SourcePath(c.nodes[x.self].queue.batch[0]);
    if fp in c.nodes[x.self].blobs {
      var blob := c.nodes[x.self].blobs[fp];
      FlattenSnoc([], blob);
      assert [] + [blob] == [blob];
    }
  }

  /** Sends left, and the claim before the next of them. */
  function Remaining(q: Queue): nat {
    2 * |q.jobs| + (if q.batch == [] then 1 else 0)
  }

  lemma FinishedLess(q: Queue, now: int)
    requires q.batch != [] && Prompt(q, now) && |Finish(q, true, now).jobs| == |q.jobs| - 1
    ensures Prompt(Finish(q, true, now), now) && Remaining(Finish(q, true, now)) < Remaining(q)
  {
  }

  ghost predicate Ready(x: Pass, c0: Cluster, c: Cluster, now: int) {
    OnCourse(x, c0, c) && x.self in c.nodes && Prompt(c.nodes[x.self].queue, now)
  }

  lemma ClaimOn(x: Pass, c0: Cluster, c: Cluster, now: int)
    requires Underway(x, c0, c) && Prompt(c.nodes[x.self].queue, now) && !Drained(x, c) && c.nodes[x.self].queue.batch == []
    ensures DrainStep(x, c, Claims(x.self, now))
    ensures var q' := Step(c, Claims(x.self, now)).nodes[x.self].queue;
      Prompt(q', now) && Remaining(q') < Remaining(c.nodes[x.self].queue)
  {
    var q := c.nodes[x.self].queue;
    ClaimStep(x, c0, c, now);
    SomethingToClaim(x, q, now);
    ClaimKeepsCount(q, now, ActivePeers(x.sender), JoinedMeta(x.sender));
  }

  lemma SendOn(x: Pass, c0: Cluster, c: Cluster, a: Action)
    requires Draining(x, c0, c) && Inv(c0) && AllDeliverable(x, c0) && DrainStep(x, c, a) && CleanSend(c, a)
    requires Prompt(c.nodes[x.self].queue, a.now)
    ensures x.self in Step(c, a).nodes
    ensures var q' := Step(c, a).nodes[x.self].queue;
      Prompt(q', a.now) && Remaining(q') < Remaining(c.nodes[x.self].queue)
  {
    CleanSendShrinks(x, c0, c, a);
    FinishedLess(c.nodes[x.self].queue, a.now);
  }

  lemma OneStepOn(x: Pass, c0: Cluster, c: Cluster, now: int) returns (a: Action)
    requires Ready(x, c0, c, now) && Inv(c0) && AllDeliverable(x, c0) && !Drained(x, c)
    ensures DrainStep(x, c, a) && Ready(x, c0, Step(c, a), now)
    ensures Remaining(Step(c, a).nodes[x.self].queue) < Remaining(c.nodes[x.self].queue)
  {
    if c.nodes[x.self].queue.batch == [] {
      a := Claims(x.self, now);
      ClaimOn(x, c0, c, now);
    } else {
      a := CleanAction(x, c, now);
      CleanActionIsClean(x, c, now);
      SendOn(x, c0, c, a);
    }
    StepStaysOnCourse(x, c0, c, a);
  }

  lemma PrependDrain(x: Pass, c: Cluster, a: Action, rest: seq<Action>)
    requires DrainStep(x, c, a) && IsRun(Step(c, a), rest) && OnlyDrains(x, rest)
    ensures IsRun(c, [a] + rest) && OnlyDrains(x, [a] + rest) && Exec(c, [a] + rest) == Exec(Step(c, a), rest)
  {
    assert ([a] + rest)[1..] == rest;
  }

  /** When all is deliverable the worker can empty the outbox: it claims when it has no batch, and every clean send
      takes one job off. */
  lemma {:induction false} DrainExists(x: Pass, c0: Cluster, c: Cluster, now: int) returns (run: seq<Action>)
    requires Ready(x, c0, c, now) && Inv(c0) && AllDeliverable(x, c0)
    ensures IsRun(c, run) && OnlyDrains(x, run) && Drained(x, Exec(c, run))
    decreases Remaining(c.nodes[x.self].queue)
  {
    if Drained(x, c) {
      run := [];
    } else {
      var a := OneStepOn(x, c0, c, now);
      var rest := DrainExists(x, c0, Step(c, a), now);
      PrependDrain(x, c, a, rest);
      run := [a] + rest;
    }
  }

  // ----- An undeliverable repair is stuck -----

  ghost predicate Stuck(x: Pass, c: Cluster, p: string, id: nat)
    requires id in x.sender.objects
  {
    && x.self in c.nodes && p in c.nodes
    && RepairQueued(c.nodes[x.self].queue, p, x.sender.objects[id].filepath)
    && (Streamable(x, id, c.origin) ==> !PathTaken(c.nodes[p].objects, x.sender.objects[id].filepath))
  }

  lemma RivalStays(x: Pass, p: string, before: Node, after: Node, key: string, name: string, fp: string)
    requires Gains(x, p, before, after) && Rival(before, key, name, fp)
    ensures Rival(after, key, name, fp)
  {
    var i :| i in before.objects && Active(before.objects[i]) && before.objects[i].key == key && before.objects[i].filepath != fp &&
      before.objects[i].bucket in before.buckets && before.buckets[before.objects[i].bucket].name == name;
    assert after.objects[i] == before.objects[i];
  }

  /** A rival that was there when the pass began is still in the way. */
  lemma RivalRejects(x: Pass, p: string, before: Node, after: Node, id: nat)
    requires Wanted(x, p, id) && Gains(x, p, before, after) && !Admissible(x, before, id)
    requires !PathTaken(after.objects, x.sender.objects[id].filepath)
    ensures !Admissible(x, after, id)
  {
    var r := x.sender.objects[id];
    RivalStays(x, p, before, after, r.key, x.sender.buckets[r.bucket].name, r.filepath);
  }

  /** Without the blob only an empty payload can be streamed, and that is not the object. */
  lemma NothingToStream(x: Pass, n: Node, id: nat, chunks: seq<Bytes>, origin: map<string, Bytes>)
    requires id in x.sender.objects && n.blobs == x.sender.blobs && !Streamable(x, id, origin)
    requires x.sender.objects[id].filepath in origin && MaySend(n, x.sender.objects[id].filepath, chunks)
    ensures Flatten(chunks) != origin[x.sender.objects[id].filepath]
  {
  }

  lemma HeadStaysStuck(x: Pass, c: Cluster, a: Action, d: Cluster, p: string, id: nat, got: Node, ok: bool)
    requires id in x.sender.objects && Stuck(x, c, p, id) && p != x.self && d.origin == c.origin
    requires a.Sends? && c.nodes[x.self].queue.batch != [] && Flight(c.nodes[x.self].queue)
    requires c.nodes[x.self].queue.batch[0].peer == p && Repairing(x, c, a, d, id, got, ok) && !ok
    ensures Stuck(x, d, p, id)
  {
    var q := c.nodes[x.self].queue;
    if !a.outcome.Unreached? { ReceiveServes(c.nodes[p], RepairMessage(x, id, a.chunks), got, ok); }
    FinishKeepsWaiting(q, false, a.now, p, x.sender.objects[id].filepath);
  }

  lemma OtherStaysStuck(x: Pass, c: Cluster, a: Action, d: Cluster, p: string, id: nat, sent: nat, got: Node, ok: bool)
    requires id in x.sender.objects && Stuck(x, c, p, id) && p != x.self && d.origin == c.origin
    requires a.Sends? && c.nodes[x.self].queue.batch != [] && Flight(c.nodes[x.self].queue)
    requires Repairing(x, c, a, d, sent, got, ok)
    requires !(c.nodes[x.self].queue.batch[0].peer == p && x.sender.objects[sent].filepath == x.sender.objects[id].filepath)
    ensures Stuck(x, d, p, id)
  {
    var q := c.nodes[x.self].queue;
    if !a.outcome.Unreached? { ReceiveServes(c.nodes[q.batch[0].peer], RepairMessage(x, sent, a.chunks), got, ok); }
    FinishKeepsWaiting(q, ok && a.outcome.Acked?, a.now, p, x.sender.objects[id].filepath);
  }

  lemma StuckIsRejected(x: Pass, c0: Cluster, c: Cluster, a: Action, p: string, id: nat, got: Node, ok: bool)
    requires Draining(x, c0, c) && DrainStep(x, c, a) && a.Sends? && !a.outcome.Unreached?
    requires Undeliverable(x, c0, p, id) && Stuck(x, c, p, id) && c.nodes[x.self].queue.batch[0].peer == p
    requires Repairing(x, c, a, Step(c, a), id, got, ok)
    ensures !ok
  {
    StepKeepsInv(c, a);
    SendAccepted(x, c, a, Step(c, a), id, got, ok);
    if Streamable(x, id, c.origin) {
      RivalRejects(x, p, c0.nodes[p], c.nodes[p], id);
    } else {
      var _ := SourceOfHead(x, c0, c);
      NothingToStream(x, c.nodes[x.self], id, a.chunks, c.origin);
    }
  }

  lemma SendStaysStuck(x: Pass, c0: Cluster, c: Cluster, a: Action, p: string, id: nat)
    requires Draining(x, c0, c) && DrainStep(x, c, a) && a.Sends? && Undeliverable(x, c0, p, id) && Stuck(x, c, p, id)
    ensures Stuck(x, Step(c, a), p, id)
  {
    var sent, got, ok := SendRepairs(x, c0, c, a);
    var head := c.nodes[x.self].queue.batch[0];
    SendNodes(c, a);
    if head.peer == p && x.sender.objects[sent].filepath == x.sender.objects[id].filepath {
      SameRow(x, p, p, sent, id);
      if !a.outcome.Unreached? { StuckIsRejected(x, c0, c, a, p, id, got, ok); }
      HeadStaysStuck(x, c, a, Step(c, a), p, id, got, ok);
    } else {
      OtherStaysStuck(x, c, a, Step(c, a), p, id, sent, got, ok);
    }
  }

  lemma QueueChangeStaysStuck(x: Pass, c: Cluster, q: Queue, p: string, id: nat)
    requires id in x.sender.objects && Stuck(x, c, p, id) && p != x.self
    requires RepairQueued(q, p, x.sender.objects[id].filepath)
    ensures Stuck(x, c.(nodes := c.nodes[x.self := x.sender.(queue := q)]), p, id)
  {
  }

  lemma ClaimStaysStuck(x: Pass, c0: Cluster, c: Cluster, a: Action, p: string, id: nat)
    requires Underway(x, c0, c) && DrainStep(x, c, a) && a.Claims? && Undeliverable(x, c0, p, id) && Stuck(x, c, p, id)
    ensures Stuck(x, Step(c, a), p, id)
  {
    var n := c.nodes[x.self];
    ClaimedNodes(x, c, a);
    ClaimKeepsWaiting(n.queue, a.now, ActivePeers(n), JoinedMeta(x.sender), p, x.sender.objects[id].filepath);
    QueueChangeStaysStuck(x, c, Claim(n.queue, a.now, ActivePeers(n), JoinedMeta(x.sender)), p, id);
  }

  /** A repair of a row whose blob the sender has lost does harm: whenever its call is handled, the receiver loses the
      blob it has under that path, keeps its rows, and the job is only retried later. */
  lemma UnreadableRepairDestroysCopy(x: Pass, c0: Cluster, c: Cluster, a: Action, id: nat)
    requires Draining(x, c0, c) && DrainStep(x, c, a) && a.Sends? && !a.outcome.Unreached?
    requires id in x.sender.objects && c.nodes[x.self].queue.batch[0].filepath == x.sender.objects[id].filepath
    requires !Streamable(x, id, c.origin)
    ensures var q := c.nodes[x.self].queue; var p := q.batch[0].peer; var d := Step(c, a);
      && p in c.nodes && p in d.nodes && x.self in d.nodes
      && d.nodes[p].blobs == c.nodes[p].blobs - {x.sender.objects[id].filepath} && d.nodes[p].objects == c.nodes[p].objects
      && d.nodes[x.self].queue == Finish(q, false, a.now)
  {
    var sent, got, ok := SendRepairs(x, c0, c, a);
    assert sent == id by { assert UniquePaths(x.sender.objects); }
    UnreadableFailsCheck(x, c0, c, a, id);
    RefusedRepair(x, c, a, Step(c, a), id, got, ok);
  }

  lemma UnreadableFailsCheck(x: Pass, c0: Cluster, c: Cluster, a: Action, id: nat)
    requires Draining(x, c0, c) && DrainStep(x, c, a) && a.Sends?
    requires id in x.sender.objects && c.nodes[x.self].queue.batch[0].filepath == x.sender.objects[id].filepath
    requires !Streamable(x, id, c.origin)
    ensures Digest(x.sender.objects[id].etagType, Flatten(a.chunks)) != x.sender.objects[id].etag
  {
    var _ := SourceOfHead(x, c0, c);
    NodeOf(c, x.self);
    RowDigest(x, id, c.origin, a.chunks);
    NothingToStream(x, c.nodes[x.self], id, a.chunks, c.origin);
  }

  lemma RefusedRepair(x: Pass, c: Cluster, a: Action, d: Cluster, id: nat, got: Node, ok: bool)
    requires a.Sends? && !a.outcome.Unreached? && x.self in c.nodes && c.nodes[x.self].queue.batch != []
    requires Repairing(x, c, a, d, id, got, ok)
    requires Digest(x.sender.objects[id].etagType, Flatten(a.chunks)) != x.sender.objects[id].etag
    ensures var q := c.nodes[x.self].queue; var p := q.batch[0].peer;
      && p in c.nodes && p in d.nodes && x.self in d.nodes
      && d.nodes[p].blobs == c.nodes[p].blobs - {x.sender.objects[id].filepath} && d.nodes[p].objects == c.nodes[p].objects
      && d.nodes[x.self].queue == Finish(q, false, a.now)
  {
  }

  lemma {:induction false} DrainStaysStuck(x: Pass, c0: Cluster, c: Cluster, run: seq<Action>, p: string, id: nat)
    requires Draining(x, c0, c) && Undeliverable(x, c0, p, id) && Stuck(x, c, p, id)
    requires IsRun(c, run) && OnlyDrains(x, run)
    ensures Stuck(x, Exec(c, run), p, id)
    decreases |run|
  {
    if run != [] {
      FirstDrains(x, c, run);
      StepKeepsDraining(x, c0, c, run[0]);
      if run[0].Claims? { ClaimStaysStuck(x, c0, c, run[0], p, id); } else { SendStaysStuck(x, c0, c, run[0], p, id); }
      DrainStaysStuck(x, c0, Step(c, run[0]), run[1..], p, id);
    }
  }

  lemma StuckAtStart(x: Pass, c: Cluster, order: seq<string>, p: string, id: nat)
    requires Begins(x, c) && forall fp :: fp in order <==> fp in ActivePaths(x.sender.objects)
    requires Undeliverable(x, c, p, id)
    ensures Stuck(x, AfterPass(x, c, order), p, id)
  {
    PassQueue(x, c, order);
  }

  /** A run of the worker alone that empties its outbox. */
  ghost predicate Empties(x: Pass, c: Cluster, run: seq<Action>) {
    IsRun(c, run) && OnlyWorks(x, run) && Drained(x, Exec(c, run))
  }

  lemma UndeliverableNeverDrains(x: Pass, c: Cluster, order: seq<string>, p: string, id: nat, run: seq<Action>)
    requires Begins(x, c) && forall fp :: fp in order <==> fp in ActivePaths(x.sender.objects)
    requires Undeliverable(x, c, p, id)
    ensures !Empties(x, AfterPass(x, c, order), run)
  {
    PassStartsDrain(x, c, order);
    StuckAtStart(x, c, order, p, id);
    if Empties(x, AfterPass(x, c, order), run) {
      EmptyingDrains(x, c, AfterPass(x, c, order), run);
      DrainStaysStuck(x, c, AfterPass(x, c, order), run, p, id);
    }
  }

  lemma DeliverableDrains(x: Pass, c: Cluster, order: seq<string>) returns (run: seq<Action>)
    requires Begins(x, c) && forall fp :: fp in order <==> fp in ActivePaths(x.sender.objects)
    requires AllDeliverable(x, c)
    ensures Empties(x, AfterPass(x, c, order), run)
  {
    PassStartsDrain(x, c, order);
    PassQueue(x, c, order);
    run := DrainExists(x, c, AfterPass(x, c, order), x.now);
  }

  /** After a pass over an empty outbox, some run of the worker empties the outbox exactly when every repair is
      deliverable: the sender still holds the blob (or the object is empty), and the peer has the row already or no
      other active object under its key in the bucket of that name. */
  lemma DrainableExactly(x: Pass, c: Cluster, order: seq<string>)
    requires Begins(x, c) && forall fp :: fp in order <==> fp in ActivePaths(x.sender.objects)
    ensures AllDeliverable(x, c) <==> exists run :: Empties(x, AfterPass(x, c, order), run)
  {
    if AllDeliverable(x, c) {
      var run := DeliverableDrains(x, c, order);
    } else {
      var p, id :| Undeliverable(x, c, p, id);
      forall run ensures !Empties(x, AfterPass(x, c, order), run) {
        UndeliverableNeverDrains(x, c, order, p, id, run);
      }
    }
  }

  /** When every repair is deliverable, some run of the worker after the pass leaves every compared peer healed. */
  lemma DeliverableHeals(x: Pass, c: Cluster, order: seq<string>) returns (run: seq<Action>)
    requires Begins(x, c) && forall fp :: fp in order <==> fp in ActivePaths(x.sender.objects)
    requires AllDeliverable(x, c)
    ensures Empties(x, AfterPass(x, c, order), run) && Healed(x, c, Exec(AfterPass(x, c, order), run))
  {
    run := DeliverableDrains(x, c, order);
    AntiEntropyHeals(x, c, order, run);
  }
}
