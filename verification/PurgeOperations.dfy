/** Permanent removal on a running node: one object, everything that expired, a whole bucket. */
module PurgeOperations {
  import opened Basics
  import opened Outbox
  import opened Store
  import opened StoreLaws
  import opened Lifecycle
  import opened Operations
  import opened NodeServers

  /** `hard_purge_object`: announce, delete the row (nulling its jobs' references), then unlink. */
  method HardPurge(s: NodeServer, id: nat, now: int) returns (found: bool)
    modifies s`objects, s`jobs, s`nextJob, s`blobs
    ensures found <==> id in old(s.objects)
    ensures s.State() == Purge(old(s.State()), s.self, id, now)
  {
    if id !in s.objects { return false; }
    var record := s.objects[id];
    s.Enqueue(id, record.filepath, record.etag, Delete, now);
    s.objects := s.objects - {id};
    s.jobs := map j | j in s.jobs :: if s.jobs[j].objectId == Some(id) then s.jobs[j].(objectId := None) else s.jobs[j];
    s.Unlink(record.filepath);
    found := true;
  }

  // ----- Purging a list -----

  function PurgeEach(n: Node, self: string, ids: seq<nat>, now: int): Node
    decreases |ids|
  {
    if ids == [] then n else PurgeEach(Purge(n, self, ids[0], now), self, ids[1..], now)
  }

  lemma {:induction false} PurgeEachSnoc(n: Node, self: string, ids: seq<nat>, id: nat, now: int)
    ensures PurgeEach(n, self, ids + [id], now) == Purge(PurgeEach(n, self, ids, now), self, id, now)
    decreases |ids|
  {
    if ids == [] {
      assert [] + [id] == [id] && [id][1..] == [];
    } else {
      assert (ids + [id])[1..] == ids[1..] + [id];
      PurgeEachSnoc(Purge(n, self, ids[0], now), self, ids[1..], id, now);
    }
  }

  /** The rows a loop gets through when the database fails it at some row: that row's transaction is rolled back and
      the loop ends. */
  function Reached(ids: seq<nat>, failsAt: Option<nat>): (r: seq<nat>)
    ensures r <= ids && |r| == if failsAt.Some? then Min(failsAt.value, |ids|) else |ids|
  {
    if failsAt.Some? && failsAt.value < |ids| then ids[..failsAt.value] else ids
  }

  /** `purge_once`, over the recycled rows that have expired. */
  method PurgeOnce(s: NodeServer, expired: seq<nat>, failsAt: Option<nat>, now: int) returns (ok: bool)
    modifies s`objects, s`jobs, s`nextJob, s`blobs
    ensures s.State() == PurgeEach(old(s.State()), s.self, Reached(expired, failsAt), now)
    ensures ok <==> failsAt == None || failsAt.value >= |expired|
  {
    for i := 0 to |expired|
      invariant s.State() == PurgeEach(old(s.State()), s.self, expired[..i], now)
      invariant failsAt.Some? ==> i <= failsAt.value
    {
      if failsAt == Some(i) { return false; }
      PurgeEachSnoc(old(s.State()), s.self, expired[..i], expired[i], now);
      assert expired[..i + 1] == expired[..i] + [expired[i]];
      var _ := HardPurge(s, expired[i], now);
    }
    assert expired[..|expired|] == expired;
    ok := true;
  }

  function PathsOf(objects: map<nat, Row>, ids: set<nat>): set<string> {
    set i | i in ids && i in objects :: objects[i].filepath
  }

  function ToSet(ids: seq<nat>): set<nat> {
    set i | i in ids
  }

  /** No waiting job refers to any of these rows. */
  ghost predicate Unreferenced(q: Queue, ids: set<nat>) {
    forall j :: j in q.jobs && q.jobs[j].objectId.Some? ==> q.jobs[j].objectId.value !in ids
  }

  /** Purging one more row keeps earlier rows unreferenced, as long as they are gone. */
  lemma PurgeKeepsUnreferenced(n: Node, self: string, id: nat, now: int, gone: set<nat>)
    requires Unreferenced(n.queue, gone) && gone !! n.objects.Keys && forall j :: j in n.queue.jobs ==> j < n.queue.next
    ensures Unreferenced(Purge(n, self, id, now).queue, gone + {id}) || id !in n.objects
    ensures forall j :: j in Purge(n, self, id, now).queue.jobs ==> j < Purge(n, self, id, now).queue.next
  {
    if id in n.objects {
      var row := n.objects[id];
      var ts := EnqueuedTickets(n, self, id, row.filepath, row.etag, Delete);
      PushAllFacts(n.queue, ts, now);
      var q := PushAll(n.queue, ts, now);
      forall j | j in q.jobs && q.jobs[j].objectId.Some? ensures q.jobs[j].objectId.value !in gone {
        if j !in n.queue.jobs { assert q.jobs[n.queue.next + (j - n.queue.next)] == FreshJob(ts[j - n.queue.next], now); }
      }
    }
  }

  /** What is left after a list of rows was purged: every other row and blob as it was, and no job that refers to a
      purged row. */
  ghost predicate Purged(n: Node, m: Node, ids: set<nat>) {
    && m.objects == n.objects - ids
    && m.blobs == n.blobs - PathsOf(n.objects, ids)
    && m.nextObject == n.nextObject && m.buckets == n.buckets && m.nextBucket == n.nextBucket && m.peers == n.peers
    && m.queue.batch == n.queue.batch
    && Unreferenced(m.queue, ids * n.objects.Keys)
    && (forall j :: j in m.queue.jobs ==> j < m.queue.next)
  }

  lemma PathsOfSplit(objects: map<nat, Row>, done: set<nat>, id: nat)
    requires id in objects
    ensures PathsOf(objects, done + {id}) == PathsOf(objects, done) + {objects[id].filepath}
  {
    forall p ensures p in PathsOf(objects, done + {id}) <==> p in PathsOf(objects, done) + {objects[id].filepath} {
      if p in PathsOf(objects, done + {id}) {
        var i :| i in done + {id} && i in objects && objects[i].filepath == p;
      }
      if p in PathsOf(objects, done) {
        var i :| i in done && i in objects && objects[i].filepath == p;
        assert i in done + {id};
      }
      if p == objects[id].filepath { assert id in done + {id}; }
    }
  }

  lemma PurgedNext(n: Node, m: Node, self: string, done: set<nat>, id: nat, now: int)
    requires Purged(n, m, done)
    ensures Purged(n, Purge(m, self, id, now), done + {id})
  {
    var k := Purge(m, self, id, now);
    if id in m.objects {
      PurgeRemoves(m, self, id, now);
      PurgeKeepsUnreferenced(m, self, id, now, done * n.objects.Keys);
      PathsOfSplit(n.objects, done, id);
      assert (done + {id}) * n.objects.Keys == done * n.objects.Keys + {id};
      assert n.objects - (done + {id}) == m.objects - {id};
      assert n.blobs - PathsOf(n.objects, done + {id}) == m.blobs - {n.objects[id].filepath};
    } else {
      assert (done + {id}) * n.objects.Keys == done * n.objects.Keys;
      assert n.objects - (done + {id}) == n.objects - done;
      assert PathsOf(n.objects, done + {id}) == PathsOf(n.objects, done) by {
        if id in n.objects { assert id in done; assert done + {id} == done; }
      }
    }
  }

  lemma {:induction false} PurgeEachPurges(n: Node, m: Node, self: string, done: set<nat>, ids: seq<nat>, now: int)
    requires Purged(n, m, done)
    ensures Purged(n, PurgeEach(m, self, ids, now), done + ToSet(ids))
    decreases |ids|
  {
    if ids == [] {
      assert done + ToSet([]) == done;
    } else {
      PurgedNext(n, m, self, done, ids[0], now);
      PurgeEachPurges(n, Purge(m, self, ids[0], now), self, done + {ids[0]}, ids[1..], now);
      assert ids == [ids[0]] + ids[1..];
      assert done + {ids[0]} + ToSet(ids[1..]) == done + ToSet(ids);
    }
  }

  /** A purge of expired rows removes exactly those rows and their blobs. When all of them were recycled, every active
      row survives with its blob. */
  lemma PurgeOnceRemovesExactly(n: Node, self: string, expired: seq<nat>, now: int)
    requires Sound(n) && forall j :: j in n.queue.jobs ==> j < n.queue.next
    ensures Purged(n, PurgeEach(n, self, expired, now), ToSet(expired))
    ensures (forall id :: id in expired && id in n.objects ==> !Active(n.objects[id])) ==>
              forall i :: i in n.objects && Active(n.objects[i]) ==> Survives(n, PurgeEach(n, self, expired, now), i)
  {
    assert Purged(n, n, {}) by {
      assert n.objects - {} == n.objects;
      assert PathsOf(n.objects, {}) == {} && n.blobs - {} == n.blobs;
    }
    PurgeEachPurges(n, n, self, {}, expired, now);
    assert {} + ToSet(expired) == ToSet(expired);
    var m := PurgeEach(n, self, expired, now);
    if forall id :: id in expired && id in n.objects ==> !Active(n.objects[id]) {
      forall i | i in n.objects && Active(n.objects[i]) ensures Survives(n, m, i) {
        assert i !in ToSet(expired);
        assert n.objects[i].filepath !in PathsOf(n.objects, ToSet(expired));
      }
    }
  }

  /** The row is as it was, and so is its blob. */
  ghost predicate Survives(n: Node, m: Node, i: nat)
    requires i in n.objects
  {
    && i in m.objects && m.objects[i] == n.objects[i]
    && var fp := n.objects[i].filepath;
       (fp in m.blobs <==> fp in n.blobs) && (fp in n.blobs ==> m.blobs[fp] == n.blobs[fp])
  }

  // ----- Announcements -----

  ghost predicate Announced(q: Queue, peer: string, row: Row, now: int) {
    exists j :: j in q.jobs && q.jobs[j] == DeleteNotice(peer, row, now)
  }

  lemma PurgeKeepsAnnounced(n: Node, self: string, id: nat, peer: string, row: Row, now: int)
    requires Announced(n.queue, peer, row, now) && forall j :: j in n.queue.jobs ==> j < n.queue.next
    ensures Announced(Purge(n, self, id, now).queue, peer, row, now)
  {
    if id in n.objects {
      var j :| j in n.queue.jobs && n.queue.jobs[j] == DeleteNotice(peer, row, now);
      PushAllFacts(n.queue, EnqueuedTickets(n, self, id, n.objects[id].filepath, n.objects[id].etag, Delete), now);
      assert Purge(n, self, id, now).queue.jobs[j] == DeleteNotice(peer, row, now);
    }
  }

  lemma PurgeMakesAnnouncement(n: Node, self: string, id: nat, peer: string, now: int)
    requires id in n.objects && n.objects[id].bucket in n.buckets && forall j :: j in n.queue.jobs ==> j < n.queue.next
    requires peer in Receivers(n.peers, n.buckets[n.objects[id].bucket], self)
    ensures Announced(Purge(n, self, id, now).queue, peer, n.objects[id], now)
  {
    PurgeAnnounces(n, self, id, now);
    var receivers := Receivers(n.peers, n.buckets[n.objects[id].bucket], self);
    var k :| 0 <= k < |receivers| && receivers[k] == peer;
    assert Purge(n, self, id, now).queue.jobs[n.queue.next + k] == DeleteNotice(peer, n.objects[id], now);
  }

  /** Every target of a purged object's bucket is told to delete it. */
  lemma {:induction false} PurgeEachAnnounces(n: Node, self: string, ids: seq<nat>, now: int, id: nat, peer: string)
    requires (forall j :: j in n.queue.jobs ==> j < n.queue.next) && id in n.objects && n.objects[id].bucket in n.buckets
    requires IsTarget(n.peers, n.buckets[n.objects[id].bucket], self, peer)
    requires id in ids
    ensures Announced(PurgeEach(n, self, ids, now).queue, peer, n.objects[id], now)
    decreases |ids|
  {
    var row := n.objects[id];
    var m := Purge(n, self, ids[0], now);
    PurgeKeepsUnreferenced(n, self, ids[0], now, {});
    if ids[0] == id {
      ReceiversExactly(n.peers, n.buckets[n.objects[id].bucket], self, peer);
      PurgeMakesAnnouncement(n, self, id, peer, now);
      StaysAnnounced(m, self, ids[1..], peer, row, now);
    } else {
      assert id in ids[1..];
      if ids[0] in n.objects { PurgeRemoves(n, self, ids[0], now); }
      PurgeEachAnnounces(m, self, ids[1..], now, id, peer);
    }
  }

  lemma {:induction false} StaysAnnounced(n: Node, self: string, ids: seq<nat>, peer: string, row: Row, now: int)
    requires Announced(n.queue, peer, row, now) && forall j :: j in n.queue.jobs ==> j < n.queue.next
    ensures Announced(PurgeEach(n, self, ids, now).queue, peer, row, now)
    decreases |ids|
  {
    if ids != [] {
      PurgeKeepsAnnounced(n, self, ids[0], peer, row, now);
      PurgeKeepsUnreferenced(n, self, ids[0], now, {});
      StaysAnnounced(Purge(n, self, ids[0], now), self, ids[1..], peer, row, now);
    }
  }

  // ----- Deleting a bucket -----

  datatype BucketOutcome = BucketDeleted | NotOwner | BucketIsDefault | DeleteFailed

  /** Rows of a bucket, active or recycled. */
  function RowsIn(objects: map<nat, Row>, bucket: nat): set<nat> {
    set i | i in objects && objects[i].bucket == bucket
  }

  /** `delete_bucket`, by an account that owns the buckets `owned`: purge every object of the bucket, active or recycled,
      in the order they are listed, then drop the bucket. Nothing of it remains, and everything else is as it was. A
      database error at some object, or at the bucket itself, leaves the bucket with the objects not yet reached. */
  method DeleteBucket(s: NodeServer, owned: set<nat>, bucket: nat, listed: seq<nat>, failsAt: Option<nat>, now: int)
    returns (outcome: BucketOutcome)
    requires Sound(s.State()) && (forall j :: j in s.jobs ==> j < s.nextJob) && owned <= s.buckets.Keys
    requires ToSet(listed) == RowsIn(s.objects, bucket)
    modifies s`objects, s`jobs, s`nextJob, s`blobs, s`buckets
    ensures outcome.NotOwner? <==> bucket !in owned
    ensures outcome.BucketIsDefault? <==> bucket in owned && old(s.buckets)[bucket].name == "storage"
    ensures outcome.DeleteFailed? <==> bucket in owned && old(s.buckets)[bucket].name != "storage" &&
                                       failsAt.Some? && failsAt.value <= |listed|
    ensures outcome.NotOwner? || outcome.BucketIsDefault? ==> s.State() == old(s.State())
    ensures outcome.DeleteFailed? ==> Purged(old(s.State()), s.State(), ToSet(Reached(listed, failsAt)))
    ensures outcome.BucketDeleted? ==> s.buckets == old(s.buckets) - {bucket}
    ensures outcome.BucketDeleted? ==> Purged(old(s.State()), s.State().(buckets := old(s.buckets)), RowsIn(old(s.objects), bucket))
    ensures Sound(s.State())
  {
    if bucket !in owned { return NotOwner; }
    if s.buckets[bucket].name == DEFAULT_BUCKET { return BucketIsDefault; }
    PurgeOnceRemovesExactly(s.State(), s.self, Reached(listed, failsAt), now);
    var ok := PurgeOnce(s, listed, failsAt, now);
    ghost var purged := s.State();
    ShrinkingKeepsSound(old(s.State()), purged);
    if !ok || failsAt == Some(|listed|) { return DeleteFailed; }
    assert RowsIn(s.objects, bucket) == {};
    s.buckets := s.buckets - {bucket};
    DroppingKeepsSound(purged, bucket);
    outcome := BucketDeleted;
  }

  lemma DroppingKeepsSound(n: Node, bucket: nat)
    requires Sound(n) && RowsIn(n.objects, bucket) == {}
    ensures Sound(n.(buckets := n.buckets - {bucket}))
  {
    forall i | i in n.objects ensures n.objects[i].bucket in n.buckets - {bucket} {
      assert i !in RowsIn(n.objects, bucket);
    }
  }
}
