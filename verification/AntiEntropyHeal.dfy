/** Anti-entropy heals: after one pass, the outbox can be drained exactly when every repair is deliverable, and once
    it is drained every compared peer has every object it should. */
module AntiEntropyHeal {
  import opened Basics
  import opened Hashing
  import opened Outbox
  import opened OutboxAudit
  import opened Store
  import opened ClusterSteps
  import opened ClusterSafety
  import opened AntiEntropy
  import opened AntiEntropyDrain

  /** The digests are those of nodes of the cluster, taken as the pass begins. */
  ghost predicate TrueDigests(x: Pass, c: Cluster) {
    && x.self in c.nodes
    && forall p :: p in x.remotes ==> p in c.nodes && x.remotes[p] == DigestMap(c.nodes[p].objects)
  }

  /** The cluster while the repairs of a pass that began in `c0` are drained. */
  ghost predicate Draining(x: Pass, c0: Cluster, c: Cluster) {
    Inv(c) && Underway(x, c0, c)
  }

  ghost predicate Underway(x: Pass, c0: Cluster, c: Cluster) {
    && c.nodes.Keys == c0.nodes.Keys && c.origin == c0.origin
    && TrueDigests(x, c0) && Sound(x.sender)
    && c.nodes[x.self] == x.sender.(queue := c.nodes[x.self].queue)
    && RepairQueue(x, c.nodes[x.self].queue)
    && OthersGain(x, c0.nodes, c.nodes)
  }

  ghost predicate OthersGain(x: Pass, before: map<string, Node>, after: map<string, Node>) {
    forall p :: p in before && p in after && p != x.self ==> Gains(x, p, before[p], after[p])
  }

  /** The worker of the repairing node claims or sends; everything else is at rest. Outcomes are recorded. */
  ghost predicate DrainStep(x: Pass, c: Cluster, a: Action) {
    MayStep(c, a) && a.at == x.self && (a.Claims? || (a.Sends? && a.recorded))
  }

  /** What a send does: its job repairs a wanted row, and only the receiver and the sender's queue change. */
  ghost predicate Repairing(x: Pass, c: Cluster, a: Action, d: Cluster, id: nat, got: Node, ok: bool)
    requires a.Sends? && x.self in c.nodes && c.nodes[x.self].queue.batch != []
  {
    var q := c.nodes[x.self].queue;
    var p := q.batch[0].peer;
    && p in c.nodes && p != x.self && Wanted(x, p, id) && q.batch[0].filepath == x.sender.objects[id].filepath
    && (if a.outcome.Unreached? then !ok && got == c.nodes[p] else Received(c.nodes[p], RepairMessage(x, id, a.chunks), got, ok))
    && d.nodes == c.nodes[p := got][x.self := x.sender.(queue := Finish(q, ok && a.outcome.Acked?, a.now))]
  }

  /** The head of the batch repairs a wanted row at a node of the cluster. */
  lemma HeadRepairs(x: Pass, c0: Cluster, q: Queue) returns (id: nat)
    requires TrueDigests(x, c0) && RepairQueue(x, q) && q.batch != []
    ensures q.batch[0].peer in c0.nodes && q.batch[0].peer != x.self && Wanted(x, q.batch[0].peer, id)
    ensures q.batch[0].filepath == x.sender.objects[id].filepath && q.batch[0].op == Put
    ensures q.batch[0].meta == Some(JoinedMeta(x.sender)[id])
  {
    assert Held(q, q.batch[0]) && Snapshot(x, q, q.batch[0]);
    id := q.jobs[q.batch[0].id].objectId.value;
  }

  lemma HandlesRepair(x: Pass, job: Claimed, id: nat, n: Node, chunks: seq<Bytes>, now: int)
    requires id in x.sender.objects && x.sender.objects[id].bucket in x.sender.buckets
    requires job.op == Put && job.meta == Some(JoinedMeta(x.sender)[id]) && Sound(n)
    ensures Received(n, RepairMessage(x, id, chunks), Handle(n, job, chunks, now).0, Handle(n, job, chunks, now).1)
  {
    assert MessageFor(job, chunks, now) == RepairMessage(x, id, chunks);
    ReceivedIs(n, RepairMessage(x, id, chunks));
  }

  lemma SentIsRepairing(x: Pass, c: Cluster, a: Action, d: Cluster, id: nat) returns (got: Node, ok: bool)
    requires a.Sends? && x.self in c.nodes && c.nodes[x.self].queue.batch != []
    requires var q := c.nodes[x.self].queue;
      && c.nodes[x.self] == x.sender.(queue := q) && q.batch[0].peer in c.nodes && q.batch[0].peer != x.self
      && Wanted(x, q.batch[0].peer, id) && q.batch[0].filepath == x.sender.objects[id].filepath
      && q.batch[0].op == Put && q.batch[0].meta == Some(JoinedMeta(x.sender)[id]) && Sound(c.nodes[q.batch[0].peer])
      && var (nodes, acked) := AfterHandler(c, q.batch[0], a.outcome, a.chunks, a.now);
         d.nodes == nodes[x.self := c.nodes[x.self].(queue := Finish(q, acked, a.now))]
    ensures Repairing(x, c, a, d, id, got, ok)
  {
    var job := c.nodes[x.self].queue.batch[0];
    got, ok := c.nodes[job.peer], false;
    if a.outcome.Unreached? {
      assert c.nodes[job.peer := got] == c.nodes;
    } else {
      HandlesRepair(x, job, id, c.nodes[job.peer], a.chunks, a.now);
      var h := Handle(c.nodes[job.peer], job, a.chunks, a.now);
      got, ok := h.0, h.1;
    }
  }

  lemma SendRepairs(x: Pass, c0: Cluster, c: Cluster, a: Action) returns (id: nat, got: Node, ok: bool)
    requires Draining(x, c0, c) && DrainStep(x, c, a) && a.Sends?
    ensures Repairing(x, c, a, Step(c, a), id, got, ok)
  {
    id := HeadRepairs(x, c0, c.nodes[x.self].queue);
    SendNodes(c, a);
    got, ok := SentIsRepairing(x, c, a, Step(c, a), id);
  }

  lemma SendNodes(c: Cluster, a: Action)
    requires MayStep(c, a) && a.Sends? && a.recorded
    ensures var q := c.nodes[a.at].queue;
      var (nodes, acked) := AfterHandler(c, q.batch[0], a.outcome, a.chunks, a.now);
      && a.at in nodes
      && (q.batch[0].peer != a.at ==> Step(c, a).nodes == nodes[a.at := c.nodes[a.at].(queue := Finish(q, acked, a.now))])
      && Step(c, a).origin == c.origin
  {
  }

  // ----- What every drain step keeps -----

  lemma OneMoreGains(x: Pass, before: map<string, Node>, after: map<string, Node>, p: string, got: Node, sender: Node)
    requires OthersGain(x, before, after) && p in before && Gains(x, p, before[p], got)
    ensures OthersGain(x, before, after[p := got][x.self := sender])
  {
  }

  lemma ClaimedNodes(x: Pass, c: Cluster, a: Action)
    requires DrainStep(x, c, a) && a.Claims? && c.nodes[x.self] == x.sender.(queue := c.nodes[x.self].queue)
    ensures var n := c.nodes[x.self];
      Step(c, a) == c.(nodes := c.nodes[x.self := x.sender.(queue := Claim(n.queue, a.now, ActivePeers(n), JoinedMeta(x.sender)))])
  {
    assert JoinedMeta(c.nodes[x.self]) == JoinedMeta(x.sender);
  }

  lemma ClaimKeepsDraining(x: Pass, c0: Cluster, c: Cluster, a: Action)
    requires Draining(x, c0, c) && DrainStep(x, c, a) && a.Claims?
    ensures Draining(x, c0, Step(c, a))
  {
    StepKeepsInv(c, a);
    ClaimedNodes(x, c, a);
    ClaimKeepsRepairs(x, c.nodes[x.self].queue, a.now, ActivePeers(c.nodes[x.self]));
    QueueChangeKeepsUnderway(x, c0, c, Claim(c.nodes[x.self].queue, a.now, ActivePeers(c.nodes[x.self]), JoinedMeta(x.sender)));
  }

  lemma QueueChangeKeepsUnderway(x: Pass, c0: Cluster, c: Cluster, q: Queue)
    requires Underway(x, c0, c) && RepairQueue(x, q)
    ensures Underway(x, c0, c.(nodes := c.nodes[x.self := x.sender.(queue := q)]))
  {
    SenderChangeKeepsGains(x, c0.nodes, c.nodes, x.sender.(queue := q));
  }

  lemma SenderChangeKeepsGains(x: Pass, before: map<string, Node>, after: map<string, Node>, sender: Node)
    requires OthersGain(x, before, after)
    ensures OthersGain(x, before, after[x.self := sender])
  {
  }

  lemma ReceiverGains(x: Pass, c: Cluster, a: Action, d: Cluster, id: nat, got: Node, ok: bool, p: string, before: Node)
    requires a.Sends? && x.self in c.nodes && c.nodes[x.self].queue.batch != [] && p == c.nodes[x.self].queue.batch[0].peer
    requires Repairing(x, c, a, d, id, got, ok) && Sound(x.sender) && Gains(x, p, before, c.nodes[p])
    ensures Gains(x, p, before, got)
  {
    if !a.outcome.Unreached? { ReceiveGains(x, p, before, c.nodes[p], id, a.chunks, got, ok); }
  }

  lemma RepairingKeepsUnderway(x: Pass, c0: Cluster, c: Cluster, a: Action, d: Cluster, id: nat, got: Node, ok: bool)
    requires Underway(x, c0, c) && a.Sends? && c.nodes[x.self].queue.batch != []
    requires Repairing(x, c, a, d, id, got, ok) && d.origin == c.origin
    ensures Underway(x, c0, d)
  {
    var q := c.nodes[x.self].queue;
    var p := q.batch[0].peer;
    var q' := Finish(q, ok && a.outcome.Acked?, a.now);
    FinishKeepsRepairs(x, q, ok && a.outcome.Acked?, a.now);
    ReceiverGains(x, c, a, d, id, got, ok, p, c0.nodes[p]);
    OneMoreGains(x, c0.nodes, c.nodes, p, got, x.sender.(queue := q'));
    UnderwayFrom(x, c0, c, d, p, got, q');
  }

  lemma UnderwayFrom(x: Pass, c0: Cluster, c: Cluster, d: Cluster, p: string, got: Node, q: Queue)
    requires TrueDigests(x, c0) && Sound(x.sender) && RepairQueue(x, q)
    requires c.nodes.Keys == c0.nodes.Keys && c.origin == c0.origin == d.origin && p in c.nodes
    requires d.nodes == c.nodes[p := got][x.self := x.sender.(queue := q)] && OthersGain(x, c0.nodes, d.nodes)
    ensures Underway(x, c0, d)
  {
  }

  lemma SendKeepsDraining(x: Pass, c0: Cluster, c: Cluster, a: Action)
    requires Draining(x, c0, c) && DrainStep(x, c, a) && a.Sends?
    ensures Draining(x, c0, Step(c, a))
  {
    StepKeepsInv(c, a);
    SendNodes(c, a);
    var id, got, ok := SendRepairs(x, c0, c, a);
    RepairingKeepsUnderway(x, c0, c, a, Step(c, a), id, got, ok);
  }

  lemma StepKeepsDraining(x: Pass, c0: Cluster, c: Cluster, a: Action)
    requires Draining(x, c0, c) && DrainStep(x, c, a)
    ensures Draining(x, c0, Step(c, a))
  {
    if a.Claims? { ClaimKeepsDraining(x, c0, c, a); } else { SendKeepsDraining(x, c0, c, a); }
  }

  /** A repair is still waiting, or its object is there. */
  ghost predicate Met(q: Queue, n: Node, p: string, fp: string) {
    RepairQueued(q, p, fp) || Served(n, fp)
  }

  lemma SendKeepsMet(x: Pass, c: Cluster, a: Action, d: Cluster, id: nat, got: Node, ok: bool, p: string, fp: string)
    requires a.Sends? && x.self in c.nodes && c.nodes[x.self].queue.batch != [] && Flight(c.nodes[x.self].queue)
    requires Repairing(x, c, a, d, id, got, ok) && p in c.nodes && p != x.self
    requires c.nodes[x.self].queue.batch[0].op == Put && Met(c.nodes[x.self].queue, c.nodes[p], p, fp)
    ensures Met(d.nodes[x.self].queue, d.nodes[p], p, fp)
  {
    var q := c.nodes[x.self].queue;
    var acked := ok && a.outcome.Acked?;
    if !a.outcome.Unreached? { ReceiveServes(c.nodes[q.batch[0].peer], RepairMessage(x, id, a.chunks), got, ok); }
    if q.batch[0].peer == p && q.batch[0].filepath == fp {
      assert Held(q, q.batch[0]);
      if !acked { FinishKeepsWaiting(q, acked, a.now, p, fp); }
    } else if RepairQueued(q, p, fp) {
      FinishKeepsWaiting(q, acked, a.now, p, fp);
    }
  }

  lemma ClaimKeepsMet(x: Pass, c: Cluster, a: Action, p: string, fp: string)
    requires DrainStep(x, c, a) && a.Claims? && c.nodes[x.self] == x.sender.(queue := c.nodes[x.self].queue)
    requires p in c.nodes && p != x.self && Met(c.nodes[x.self].queue, c.nodes[p], p, fp)
    ensures p in Step(c, a).nodes && x.self in Step(c, a).nodes
    ensures Met(Step(c, a).nodes[x.self].queue, Step(c, a).nodes[p], p, fp)
  {
    var n := c.nodes[x.self];
    ClaimedNodes(x, c, a);
    if RepairQueued(n.queue, p, fp) { ClaimKeepsWaiting(n.queue, a.now, ActivePeers(n), JoinedMeta(x.sender), p, fp); }
  }

  lemma StepKeepsMet(x: Pass, c0: Cluster, c: Cluster, a: Action, p: string, fp: string)
    requires Draining(x, c0, c) && DrainStep(x, c, a) && p in c.nodes && p != x.self
    requires Met(c.nodes[x.self].queue, c.nodes[p], p, fp)
    ensures p in Step(c, a).nodes && x.self in Step(c, a).nodes
    ensures Met(Step(c, a).nodes[x.self].queue, Step(c, a).nodes[p], p, fp)
  {
    if a.Claims? {
      ClaimKeepsMet(x, c, a, p, fp);
    } else {
      var id, got, ok := SendRepairs(x, c0, c, a);
      var _ := HeadRepairs(x, c0, c.nodes[x.self].queue);
      SendKeepsMet(x, c, a, Step(c, a), id, got, ok, p, fp);
    }
  }

  // ----- When a repair is deliverable -----

  /** Another object is active under this key in the bucket of this name. */
  ghost predicate Rival(n: Node, key: string, name: string, fp: string) {
    exists i :: i in n.objects && Active(n.objects[i]) && n.objects[i].key == key && n.objects[i].filepath != fp &&
      n.objects[i].bucket in n.buckets && n.buckets[n.objects[i].bucket].name == name
  }

  /** The sender can stream the original bytes. */
  ghost predicate Streamable(x: Pass, id: nat, origin: map<string, Bytes>)
    requires id in x.sender.objects
  {
    var fp := x.sender.objects[id].filepath;
    fp in x.sender.blobs || (fp in origin && origin[fp] == [])
  }

  /** The receiver has the row already, or no other active object under its key. */
  ghost predicate Admissible(x: Pass, n: Node, id: nat)
    requires id in x.sender.objects && x.sender.objects[id].bucket in x.sender.buckets
  {
    var r := x.sender.objects[id];
    PathTaken(n.objects, r.filepath) || !Rival(n, r.key, x.sender.buckets[r.bucket].name, r.filepath)
  }

  /** Two wanted rows of one key and bucket are one row. */
  lemma WantedKeysDiffer(x: Pass, p: string, i: nat, j: nat)
    requires Sound(x.sender) && Wanted(x, p, i) && Wanted(x, p, j) && x.sender.objects[i].key == x.sender.objects[j].key
    requires x.sender.buckets[x.sender.objects[i].bucket].name == x.sender.buckets[x.sender.objects[j].bucket].name
    ensures i == j
  {
  }

  /** A row a repair brought under this key is the wanted row itself. */
  lemma BroughtIsNoRival(x: Pass, p: string, id: nat, r: Row, buckets: map<nat, Bucket>)
    requires Sound(x.sender) && Wanted(x, p, id) && Brought(x, p, r, buckets)
    ensures r.bucket in buckets
    ensures r.key == x.sender.objects[id].key && buckets[r.bucket].name == x.sender.buckets[x.sender.objects[id].bucket].name ==>
              r.filepath == x.sender.objects[id].filepath
  {
    var j :| Wanted(x, p, j) && Copies(x, j, r, buckets);
    if r.key == x.sender.objects[id].key && buckets[r.bucket].name == x.sender.buckets[x.sender.objects[id].bucket].name {
      WantedKeysDiffer(x, p, id, j);
    }
  }

  lemma AdmissibleStays(x: Pass, p: string, before: Node, after: Node, id: nat)
    requires Sound(x.sender) && Sound(before) && Wanted(x, p, id) && Gains(x, p, before, after)
    requires Admissible(x, before, id)
    ensures Admissible(x, after, id)
  {
    var r := x.sender.objects[id];
    var name := x.sender.buckets[r.bucket].name;
    if PathTaken(before.objects, r.filepath) {
      var i :| i in before.objects && before.objects[i].filepath == r.filepath;
      assert after.objects[i].filepath == r.filepath;
    } else {
      assert forall i :: i in before.objects ==> before.objects[i].bucket in before.buckets;
      forall i | i in after.objects && Active(after.objects[i]) && after.objects[i].key == r.key &&
          after.objects[i].bucket in after.buckets && after.buckets[after.objects[i].bucket].name == name
        ensures after.objects[i].filepath == r.filepath
      {
        if i !in before.objects { BroughtIsNoRival(x, p, id, after.objects[i], after.buckets); }
      }
    }
  }

  lemma AdmissibleIsAccepted(x: Pass, n: Node, id: nat, chunks: seq<Bytes>, got: Node, ok: bool)
    requires Sound(x.sender) && Sound(n) && id in x.sender.objects && x.sender.objects[id].bucket in x.sender.buckets
    requires Received(n, RepairMessage(x, id, chunks), got, ok) && TidyBuckets(got.buckets, got.nextBucket)
    ensures ok <==> Digest(x.sender.objects[id].etagType, Flatten(chunks)) == x.sender.objects[id].etag && Admissible(x, n, id)
  {
    var r := x.sender.objects[id];
    var name := x.sender.buckets[r.bucket].name;
    var m := RepairMessage(x, id, chunks);
    RepairNamesBucket(x, id, chunks);
    if Digest(r.etagType, Flatten(chunks)) == r.etag && !PathTaken(n.objects, r.filepath) {
      var b :| Lands(n, m, b, got, ok);
      if Rival(n, r.key, name, r.filepath) { RivalHoldsKey(n, got, b, r.key, name, r.filepath); }
      if !ok {
        var i := FindActive(n.objects, b, r.key).value;
        assert n.objects[i].bucket in n.buckets;
        assert Rival(n, r.key, name, r.filepath);
      }
    }
  }

  lemma RivalHoldsKey(n: Node, got: Node, b: nat, key: string, name: string, fp: string)
    requires Rival(n, key, name, fp) && TidyBuckets(got.buckets, got.nextBucket)
    requires forall k :: k in n.buckets ==> k in got.buckets && got.buckets[k] == n.buckets[k]
    requires b in got.buckets && got.buckets[b].name == name
    ensures FindActive(n.objects, b, key).Some?
  {
    var i :| i in n.objects && Active(n.objects[i]) && n.objects[i].key == key && n.objects[i].filepath != fp &&
      n.objects[i].bucket in n.buckets && n.buckets[n.objects[i].bucket].name == name;
    SameNameSameBucket(got, n.objects[i].bucket, b);
    assert Serves(n.objects[i], b, key);
  }

  lemma SameNameSameBucket(got: Node, a: nat, b: nat)
    requires a in got.buckets && b in got.buckets && got.buckets[a].name == got.buckets[b].name
    requires TidyBuckets(got.buckets, got.nextBucket)
    ensures a == b
  {
  }
}
