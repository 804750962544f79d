/** The anti-entropy pass as it runs on a node: nested loops over peers and the local digest. */
module AntiEntropyLoop {
  import opened Basics
  import opened Hashing
  import opened Outbox
  import opened Store
  import opened ClusterSteps
  import opened AntiEntropy
  import opened NodeServers

  /** `digest_map` with an empty prefix. */
  method LocalDigest(s: NodeServer) returns (digest: map<string, Etag>)
    requires UniquePaths(s.objects)
    ensures digest == DigestMap(s.objects)
  {
    digest := map[];
    var left := s.objects.Keys;
    while left != {}
      invariant left <= s.objects.Keys
      invariant forall fp :: fp in digest <==> exists i :: i in s.objects && i !in left && Active(s.objects[i]) && s.objects[i].filepath == fp
      invariant forall fp :: fp in digest ==> fp in ActivePaths(s.objects) && digest[fp] == EtagAt(s.objects, fp)
      decreases |left|
    {
      var i :| i in left;
      left := left - {i};
      if Active(s.objects[i]) {
        DigestMapReads(s.objects, i);
        digest := digest[s.objects[i].filepath := s.objects[i].etag];
      }
    }
    assert digest.Keys == ActivePaths(s.objects);
  }

  /** `enqueue_put_for_peer`: nothing when a PUT for this peer and path is already there. */
  method EnqueuePutForPeer(s: NodeServer, peer: string, id: nat, now: int)
    requires id in s.objects
    modifies s`jobs, s`nextJob
    ensures s.State() == Repair(old(s.State()), peer, id, now)
  {
    var row := s.objects[id];
    if j :| j in s.jobs && s.jobs[j].peer == peer && s.jobs[j].filepath == row.filepath && s.jobs[j].op == Put {
      return;
    }
    s.InsertJob(Ticket(peer, id, row.filepath, row.etag, Put), now);
  }

  /** One entry of the local digest against one peer's. */
  method RepairOne(s: NodeServer, peer: string, remote: map<string, Etag>, filepath: string, etag: Etag, now: int)
    requires UniquePaths(s.objects) && filepath in DigestMap(s.objects) && etag == DigestMap(s.objects)[filepath]
    modifies s`jobs, s`nextJob
    ensures s.State() == RepairPath(old(s.State()), peer, remote, filepath, now)
  {
    var i :| i in s.objects && Active(s.objects[i]) && s.objects[i].filepath == filepath;
    DigestMapReads(s.objects, i);
    assert FindPath(s.objects, filepath) == Some(i);
    var missing := filepath !in remote || remote[filepath] != etag;
    if missing {
      if s.objects[i].bucket in s.buckets && Receives(s.buckets[s.objects[i].bucket], peer) {
        EnqueuePutForPeer(s, peer, i, now);
      }
    }
  }

  /** The inner loop, over the local digest in the order it yields its entries. */
  method RepairPeer(s: NodeServer, peer: string, local: map<string, Etag>, remote: map<string, Etag>, order: seq<string>, now: int)
    requires UniquePaths(s.objects) && local == DigestMap(s.objects) && forall fp :: fp in order ==> fp in local
    modifies s`jobs, s`nextJob
    ensures s.State() == RepairPaths(old(s.State()), peer, remote, order, now)
  {
    for i := 0 to |order|
      invariant s.State() == RepairPaths(old(s.State()), peer, remote, order[..i], now)
    {
      RepairPathsSnoc(old(s.State()), peer, remote, order[..i], order[i], now);
      assert order[..i + 1] == order[..i] + [order[i]];
      assert order[i] in order;
      RepairOne(s, peer, remote, order[i], local[order[i]], now);
    }
    assert order[..|order|] == order;
  }

  lemma {:induction false} RepairPathsSnoc(n: Node, peer: string, remote: map<string, Etag>, order: seq<string>, fp: string, now: int)
    ensures RepairPaths(n, peer, remote, order + [fp], now) == RepairPath(RepairPaths(n, peer, remote, order, now), peer, remote, fp, now)
    decreases |order|
  {
    if order == [] {
      assert [] + [fp] == [fp] && [fp][1..] == [];
    } else {
      assert (order + [fp])[1..] == order[1..] + [fp];
      RepairPathsSnoc(RepairPath(n, peer, remote, order[0], now), peer, remote, order[1..], fp, now);
    }
  }

  lemma {:induction false} RepairPeersSnoc(n: Node, self: string, peers: seq<Peer>, p: Peer, remotes: map<string, map<string, Etag>>,
                                           order: seq<string>, now: int)
    ensures var m := RepairPeers(n, self, peers, remotes, order, now);
      RepairPeers(n, self, peers + [p], remotes, order, now) ==
        if p.active && p.id != self && p.id in remotes then RepairPaths(m, p.id, remotes[p.id], order, now) else m
    decreases |peers|
  {
    if peers == [] {
      assert [] + [p] == [p] && [p][1..] == [];
    } else {
      assert (peers + [p])[1..] == peers[1..] + [p];
      var q := peers[0];
      var m := if q.active && q.id != self && q.id in remotes then RepairPaths(n, q.id, remotes[q.id], order, now) else n;
      RepairPeersSnoc(m, self, peers[1..], p, remotes, order, now);
    }
  }

  /** `run_once`. A peer that could not be reached has no entry in `remotes`. */
  method RunPass(s: NodeServer, remotes: map<string, map<string, Etag>>, order: seq<string>, now: int)
    requires UniquePaths(s.objects) && forall fp :: fp in order <==> fp in ActivePaths(s.objects)
    modifies s`jobs, s`nextJob
    ensures s.State() == RunOnce(old(s.State()), s.self, remotes, order, now)
  {
    var local := LocalDigest(s);
    var all := s.peers;
    for i := 0 to |all|
      invariant s.State() == RepairPeers(old(s.State()), s.self, all[..i], remotes, order, now)
    {
      RepairPeersSnoc(old(s.State()), s.self, all[..i], all[i], remotes, order, now);
      assert all[..i + 1] == all[..i] + [all[i]];
      if all[i].active && all[i].id != s.self && all[i].id in remotes {
        RepairPeer(s, all[i].id, local, remotes[all[i].id], order, now);
      }
    }
    assert all[..|all|] == all;
  }
}
