/** Anti-entropy: one digest comparison per peer, and exactly which repairs a pass enqueues. */
module AntiEntropy {
  import opened Basics
  import opened Hashing
  import opened Outbox
  import opened Store
  import opened ClusterSteps

  /** Paths of active rows. */
  function ActivePaths(objects: map<nat, Row>): set<string> {
    set i | i in objects && Active(objects[i]) :: objects[i].filepath
  }

  /** `digest_map` with an empty prefix: path to etag, for active rows. */
  ghost function DigestMap(objects: map<nat, Row>): map<string, Etag> {
    map fp | fp in ActivePaths(objects) :: EtagAt(objects, fp)
  }

  ghost function EtagAt(objects: map<nat, Row>, fp: string): Etag
    requires fp in ActivePaths(objects)
  {
    var i :| i in objects && Active(objects[i]) && objects[i].filepath == fp;
    objects[i].etag
  }

  lemma DigestMapReads(objects: map<nat, Row>, i: nat)
    requires UniquePaths(objects) && i in objects && Active(objects[i])
    ensures objects[i].filepath in DigestMap(objects) && DigestMap(objects)[objects[i].filepath] == objects[i].etag
  {
  }

  /** The digest has the path of every active row, under its etag, and no other path. */
  lemma DigestMapExactly(objects: map<nat, Row>, fp: string, etag: Etag)
    requires UniquePaths(objects)
    ensures fp in DigestMap(objects) && DigestMap(objects)[fp] == etag <==>
              exists i :: i in objects && objects[i].deletedAt == None && objects[i].filepath == fp && objects[i].etag == etag
  {
    if i :| i in objects && Active(objects[i]) && objects[i].filepath == fp { DigestMapReads(objects, i); }
  }

  /** A remote digest lacks the path, or has another etag for it. */
  predicate Differs(remote: map<string, Etag>, fp: string, etag: Etag) {
    fp !in remote || remote[fp] != etag
  }

  /** The row is active, its bucket replicates to the peer, and the peer's digest disagrees. */
  predicate NeedsRepair(n: Node, peer: string, remote: map<string, Etag>, id: nat) {
    && id in n.objects && Active(n.objects[id])
    && n.objects[id].bucket in n.buckets && Receives(n.buckets[n.objects[id].bucket], peer)
    && Differs(remote, n.objects[id].filepath, n.objects[id].etag)
  }

  ghost function RepairPath(n: Node, peer: string, remote: map<string, Etag>, fp: string, now: int): Node {
    var found := FindPath(n.objects, fp);
    if found.Some? && NeedsRepair(n, peer, remote, found.value) then Repair(n, peer, found.value, now) else n
  }

  /** One peer: every path of the local digest, in whatever order the map yields them. */
  ghost function RepairPaths(n: Node, peer: string, remote: map<string, Etag>, order: seq<string>, now: int): Node
    decreases |order|
  {
    if order == [] then n else RepairPaths(RepairPath(n, peer, remote, order[0], now), peer, remote, order[1..], now)
  }

  /** All active peers but the node itself; one that cannot be reached is skipped. */
  ghost function RepairPeers(n: Node, self: string, peers: seq<Peer>, remotes: map<string, map<string, Etag>>, order: seq<string>, now: int): Node
    decreases |peers|
  {
    if peers == [] then n
    else
      var p := peers[0];
      var m := if p.active && p.id != self && p.id in remotes then RepairPaths(n, p.id, remotes[p.id], order, now) else n;
      RepairPeers(m, self, peers[1..], remotes, order, now)
  }

  ghost function RunOnce(n: Node, self: string, remotes: map<string, map<string, Etag>>, order: seq<string>, now: int): Node {
    RepairPeers(n, self, n.peers, remotes, order, now)
  }

  // ----- What one pass enqueues -----

  /** The row is active in a bucket that replicates to all or to this peer, and the peer's digest has not got its etag. */
  ghost predicate Lacks(n: Node, peer: string, remote: map<string, Etag>, id: nat) {
    && id in n.objects && n.objects[id].deletedAt == None && n.objects[id].bucket in n.buckets
    && (n.buckets[n.objects[id].bucket].replicateToAll || peer in n.buckets[n.objects[id].bucket].nodes)
    && (n.objects[id].filepath !in remote || remote[n.objects[id].filepath] != n.objects[id].etag)
  }

  /** That is what the pass tests. */
  lemma LacksIsTested(n: Node, peer: string, remote: map<string, Etag>, id: nat)
    ensures NeedsRepair(n, peer, remote, id) <==> Lacks(n, peer, remote, id)
  {
  }

  /** A PUT of the path for the peer is in the outbox, in whatever state. */
  ghost predicate PutWaits(jobs: map<nat, Job>, peer: string, fp: string) {
    exists j :: j in jobs && jobs[j].peer == peer && jobs[j].filepath == fp && jobs[j].op == Put
  }

  lemma WaitingIsTested(q: Queue, peer: string, fp: string)
    ensures RepairQueued(q, peer, fp) <==> PutWaits(q.jobs, peer, fp)
  {
  }

  /** The repair job for a row. */
  function RepairJob(n: Node, peer: string, id: nat, now: int): Job
    requires id in n.objects
  {
    Job(peer, Some(id), n.objects[id].filepath, n.objects[id].etag, Put, Pending, 0, now)
  }

  /** Only the queue changed, old jobs stay, and each new one repairs a row that needed it. */
  ghost predicate Extends(n: Node, m: Node, remotes: map<string, map<string, Etag>>, now: int) {
    && m == n.(queue := m.queue)
    && m.queue.batch == n.queue.batch
    && m.queue.next >= n.queue.next
    && (forall j :: j in n.queue.jobs ==> j in m.queue.jobs && m.queue.jobs[j] == n.queue.jobs[j])
    && (forall j :: j in m.queue.jobs && j !in n.queue.jobs ==> n.queue.next <= j < m.queue.next && Justified(n, m.queue.jobs[j], remotes, now))
  }

  ghost predicate Justified(n: Node, job: Job, remotes: map<string, map<string, Etag>>, now: int) {
    exists id :: id in n.objects && job.peer in remotes && Lacks(n, job.peer, remotes[job.peer], id) && job == RepairJob(n, job.peer, id, now)
  }

  lemma ExtendsTransitive(a: Node, b: Node, c: Node, remotes: map<string, map<string, Etag>>, now: int)
    requires Extends(a, b, remotes, now) && Extends(b, c, remotes, now)
    ensures Extends(a, c, remotes, now)
  {
    forall j | j in c.queue.jobs && j !in a.queue.jobs
      ensures a.queue.next <= j < c.queue.next && Justified(a, c.queue.jobs[j], remotes, now)
    {
      if j in b.queue.jobs {
        assert Justified(a, b.queue.jobs[j], remotes, now);
      } else {
        assert Justified(b, c.queue.jobs[j], remotes, now);
        var id :| id in b.objects && c.queue.jobs[j].peer in remotes &&
          Lacks(b, c.queue.jobs[j].peer, remotes[c.queue.jobs[j].peer], id) && c.queue.jobs[j] == RepairJob(b, c.queue.jobs[j].peer, id, now);
        assert Lacks(a, c.queue.jobs[j].peer, remotes[c.queue.jobs[j].peer], id);
      }
    }
  }

  ghost predicate Bounded(q: Queue) {
    forall j :: j in q.jobs ==> j < q.next
  }

  lemma RepairPathExtends(n: Node, peer: string, remotes: map<string, map<string, Etag>>, fp: string, now: int)
    requires peer in remotes && Bounded(n.queue)
    ensures Extends(n, RepairPath(n, peer, remotes[peer], fp, now), remotes, now)
    ensures Bounded(RepairPath(n, peer, remotes[peer], fp, now).queue)
    ensures forall id :: id in n.objects && n.objects[id].filepath == fp && Lacks(n, peer, remotes[peer], id) && UniquePaths(n.objects)
              ==> RepairQueued(RepairPath(n, peer, remotes[peer], fp, now).queue, peer, fp)
  {
    var m := RepairPath(n, peer, remotes[peer], fp, now);
    var found := FindPath(n.objects, fp);
    if found.Some? && Lacks(n, peer, remotes[peer], found.value) && !RepairQueued(n.queue, peer, fp) {
      var j := n.queue.next;
      assert m.queue.jobs[j] == RepairJob(n, peer, found.value, now);
      assert m.queue.jobs[j].peer == peer && m.queue.jobs[j].filepath == fp && m.queue.jobs[j].op == Put;
    }
  }

  lemma QueuedStays(n: Node, m: Node, remotes: map<string, map<string, Etag>>, now: int, peer: string, fp: string)
    requires Extends(n, m, remotes, now) && RepairQueued(n.queue, peer, fp)
    ensures RepairQueued(m.queue, peer, fp)
  {
    var j :| j in n.queue.jobs && n.queue.jobs[j].peer == peer && n.queue.jobs[j].filepath == fp && n.queue.jobs[j].op == Put;
    assert j in m.queue.jobs && m.queue.jobs[j] == n.queue.jobs[j];
  }

  /** The row at this path is one the peer needs. */
  ghost predicate PathNeeded(n: Node, peer: string, remote: map<string, Etag>, fp: string) {
    exists id :: id in n.objects && n.objects[id].filepath == fp && Lacks(n, peer, remote, id)
  }

  lemma {:induction false} RepairPathsExtends(n: Node, peer: string, remotes: map<string, map<string, Etag>>, order: seq<string>, now: int)
    requires peer in remotes && Bounded(n.queue) && UniquePaths(n.objects)
    ensures var m := RepairPaths(n, peer, remotes[peer], order, now);
      && Extends(n, m, remotes, now) && Bounded(m.queue)
      && (forall fp :: fp in order && PathNeeded(n, peer, remotes[peer], fp) ==> RepairQueued(m.queue, peer, fp))
    decreases |order|
  {
    if order != [] {
      var fp := order[0];
      var k := RepairPath(n, peer, remotes[peer], fp, now);
      var m := RepairPaths(n, peer, remotes[peer], order, now);
      RepairPathExtends(n, peer, remotes, fp, now);
      RepairPathsExtends(k, peer, remotes, order[1..], now);
      ExtendsTransitive(n, k, m, remotes, now);
      forall want | want in order && PathNeeded(n, peer, remotes[peer], want)
        ensures RepairQueued(m.queue, peer, want)
      {
        var id :| id in n.objects && n.objects[id].filepath == want && Lacks(n, peer, remotes[peer], id);
        if want == fp {
          QueuedStays(k, m, remotes, now, peer, fp);
        } else {
          assert want in order[1..];
          assert Lacks(k, peer, remotes[peer], id);
        }
      }
    }
  }

  /** `p` is an active peer of the list other than the node itself, and its digest was obtained. */
  ghost predicate Compared(peers: seq<Peer>, self: string, remotes: map<string, map<string, Etag>>, p: string) {
    p != self && p in remotes && exists k :: 0 <= k < |peers| && peers[k] == Peer(p, true)
  }

  lemma {:induction false} RepairPeersExtends(n: Node, self: string, peers: seq<Peer>, remotes: map<string, map<string, Etag>>, order: seq<string>, now: int)
    requires Bounded(n.queue) && UniquePaths(n.objects)
    ensures var m := RepairPeers(n, self, peers, remotes, order, now);
      && Extends(n, m, remotes, now) && Bounded(m.queue)
      && (forall p, fp :: Compared(peers, self, remotes, p) && fp in order && PathNeeded(n, p, remotes[p], fp) ==> RepairQueued(m.queue, p, fp))
      && (forall j :: j in m.queue.jobs && j !in n.queue.jobs ==> Compared(peers, self, remotes, m.queue.jobs[j].peer))
    decreases |peers|
  {
    if peers != [] {
      var head := peers[0];
      var use := head.active && head.id != self && head.id in remotes;
      var k := if use then RepairPaths(n, head.id, remotes[head.id], order, now) else n;
      var m := RepairPeers(n, self, peers, remotes, order, now);
      if use { RepairPathsExtends(n, head.id, remotes, order, now); RepairPathsPeer(n, head.id, remotes[head.id], order, now); }
      RepairPeersExtends(k, self, peers[1..], remotes, order, now);
      ExtendsTransitive(n, k, m, remotes, now);
      forall p, fp | Compared(peers, self, remotes, p) && fp in order && PathNeeded(n, p, remotes[p], fp)
        ensures RepairQueued(m.queue, p, fp)
      {
        var i :| 0 <= i < |peers| && peers[i] == Peer(p, true);
        if i == 0 {
          QueuedStays(k, m, remotes, now, p, fp);
        } else {
          var id :| id in n.objects && n.objects[id].filepath == fp && Lacks(n, p, remotes[p], id);
          assert peers[1..][i - 1] == Peer(p, true);
          assert Compared(peers[1..], self, remotes, p) && Lacks(k, p, remotes[p], id);
        }
      }
      forall j | j in m.queue.jobs && j !in n.queue.jobs
        ensures Compared(peers, self, remotes, m.queue.jobs[j].peer)
      {
        if j in k.queue.jobs {
          assert peers[0] == Peer(m.queue.jobs[j].peer, true);
        } else {
          var i :| 0 <= i < |peers[1..]| && peers[1..][i] == Peer(m.queue.jobs[j].peer, true);
          assert peers[i + 1] == Peer(m.queue.jobs[j].peer, true);
        }
      }
    }
  }

  lemma {:induction false} RepairPathsPeer(n: Node, peer: string, remote: map<string, Etag>, order: seq<string>, now: int)
    requires Bounded(n.queue)
    ensures forall j :: j in RepairPaths(n, peer, remote, order, now).queue.jobs && j !in n.queue.jobs ==>
              RepairPaths(n, peer, remote, order, now).queue.jobs[j].peer == peer
    decreases |order|
  {
    if order != [] {
      RepairPathsPeer(RepairPath(n, peer, remote, order[0], now), peer, remote, order[1..], now);
      KeepsOldJobs(RepairPath(n, peer, remote, order[0], now), peer, remote, order[1..], now);
    }
  }

  lemma {:induction false} KeepsOldJobs(n: Node, peer: string, remote: map<string, Etag>, order: seq<string>, now: int)
    requires Bounded(n.queue)
    ensures var m := RepairPaths(n, peer, remote, order, now);
      forall j :: j in n.queue.jobs ==> j in m.queue.jobs && m.queue.jobs[j] == n.queue.jobs[j]
    decreases |order|
  {
    if order != [] { KeepsOldJobs(RepairPath(n, peer, remote, order[0], now), peer, remote, order[1..], now); }
  }

  /** After a pass a PUT for a peer and path is waiting exactly when one already was, or the peer was compared, the
      path is locally active in a bucket that replicates to it, and the digests disagree. Old jobs stay as they
      were, new ones repair a row that needed it, and nothing but the queue changes. */
  lemma RunOnceEnqueuesExactly(n: Node, self: string, remotes: map<string, map<string, Etag>>, order: seq<string>, now: int)
    requires UniquePaths(n.objects) && Bounded(n.queue)
    requires forall fp :: fp in order <==> fp in ActivePaths(n.objects)
    ensures var m := RunOnce(n, self, remotes, order, now);
      && Extends(n, m, remotes, now) && Bounded(m.queue)
      && (forall p, fp :: PutWaits(m.queue.jobs, p, fp) <==>
            PutWaits(n.queue.jobs, p, fp) || (Compared(n.peers, self, remotes, p) && PathNeeded(n, p, remotes[p], fp)))
      && (forall j :: j in m.queue.jobs && j !in n.queue.jobs ==> Compared(n.peers, self, remotes, m.queue.jobs[j].peer))
  {
    var m := RunOnce(n, self, remotes, order, now);
    RepairPeersExtends(n, self, n.peers, remotes, order, now);
    forall p, fp
      ensures PutWaits(m.queue.jobs, p, fp) <==>
              PutWaits(n.queue.jobs, p, fp) || (Compared(n.peers, self, remotes, p) && PathNeeded(n, p, remotes[p], fp))
    {
      WaitingIsTested(n.queue, p, fp);
      WaitingIsTested(m.queue, p, fp);
      if RepairQueued(m.queue, p, fp) {
        var j :| j in m.queue.jobs && m.queue.jobs[j].peer == p && m.queue.jobs[j].filepath == fp && m.queue.jobs[j].op == Put;
        if j !in n.queue.jobs { assert Justified(n, m.queue.jobs[j], remotes, now); }
      }
      if RepairQueued(n.queue, p, fp) { QueuedStays(n, m, remotes, now, p, fp); }
      if Compared(n.peers, self, remotes, p) && PathNeeded(n, p, remotes[p], fp) {
        assert fp in ActivePaths(n.objects);
      }
    }
  }
}
