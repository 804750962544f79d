/** One node as the program runs it: tables and blob directory as mutable fields, every operation step by step, each
    proved to have the effect its specification function describes. */
module NodeServers {
  import opened Basics
  import opened Hashing
  import opened Outbox
  import opened Store
  import opened Lifecycle

  /** Bytes read from a file at a time. */
  const BUFFER: nat := 65536

  /** The read that fails, if one does, comes after those a file of this length takes: its buffers and its end. */
  predicate ReadsThrough(length: nat, readFault: Option<nat>) {
    readFault.Some? ==> length + BUFFER <= readFault.value * BUFFER
  }

  // ----- Facts about the specification functions -----

  lemma {:induction false} PushAllSnoc(q: Queue, ts: seq<Ticket>, t: Ticket, now: int)
    ensures PushAll(q, ts + [t], now) == Push(PushAll(q, ts, now), t, now)
    decreases |ts|
  {
    if ts == [] {
      assert [t][1..] == [] && [] + [t] == [t];
    } else {
      assert (ts + [t])[1..] == ts[1..] + [t];
      PushAllSnoc(Push(q, ts[0], now), ts[1..], t, now);
    }
  }

  lemma {:induction false} ReceiversSnoc(peers: seq<Peer>, p: Peer, b: Bucket, self: string)
    ensures Receivers(peers + [p], b, self) ==
              Receivers(peers, b, self) + (if p.active && p.id != self && Receives(b, p.id) then [p.id] else [])
  {
    if peers == [] {
      assert [p][1..] == [] && [] + [p] == [p];
    } else {
      assert (peers + [p])[1..] == peers[1..] + [p];
      ReceiversSnoc(peers[1..], p, b, self);
    }
  }

  lemma TicketsSnoc(peers: seq<string>, p: string, oid: nat, filepath: string, etag: Etag, op: Operation)
    ensures Tickets(peers + [p], oid, filepath, etag, op) == Tickets(peers, oid, filepath, etag, op) + [Ticket(p, oid, filepath, etag, op)]
  {
  }

  lemma QueueNext(q: Queue, peers: seq<Peer>, p: Peer, b: Bucket, self: string, oid: nat, filepath: string, etag: Etag, op: Operation, now: int)
    ensures var before := PushAll(q, Tickets(Receivers(peers, b, self), oid, filepath, etag, op), now);
      PushAll(q, Tickets(Receivers(peers + [p], b, self), oid, filepath, etag, op), now) ==
        if p.active && p.id != self && Receives(b, p.id) then Push(before, Ticket(p.id, oid, filepath, etag, op), now) else before
  {
    ReceiversSnoc(peers, p, b, self);
    var some := Receivers(peers, b, self);
    if p.active && p.id != self && Receives(b, p.id) {
      TicketsSnoc(some, p.id, oid, filepath, etag, op);
      PushAllSnoc(q, Tickets(some, oid, filepath, etag, op), Ticket(p.id, oid, filepath, etag, op), now);
    } else {
      assert some + [] == some;
    }
  }

  /** The rest of an upload, from a state in which its blob has been written. */
  ghost function AfterWrite(n: Node, self: string, row: Row, fault: PutFault, now: int): (Node, PutOutcome)
    requires row.bucket in n.buckets
  {
    var undone := n.(blobs := n.blobs - {row.filepath});
    if fault.BeginFault? || fault.LookupFault? || fault.QuotaFault? then (undone, Aborted)
    else if !QuotaAllows(n, row.bucket, row.size - ReplacedSize(n, row.bucket, row.key)) then (undone, QuotaExceeded)
    else if fault.SoftDeleteFault? then (undone, Aborted)
    else
      var recycled := RecycleActive(n.objects, row.bucket, row.key, now);
      if fault.InsertFault? || fault.EnqueueFault? || fault.CommitFault? || PathTaken(recycled, row.filepath) then
        (undone.(objects := recycled), Aborted)
      else
        (EnqueueForPeers(n.(objects := recycled[n.nextObject := row], nextObject := n.nextObject + 1),
                         self, n.nextObject, row.filepath, row.etag, Put, now), Stored(n.nextObject))
  }

  lemma PutIsWriteThenRest(n: Node, self: string, req: PutRequest, fault: PutFault, now: int)
    requires req.bucket in n.buckets && !fault.StreamFault?
    ensures PutObject(n, self, req, fault, now) ==
              AfterWrite(n.(blobs := n.blobs[req.filepath := Flatten(req.chunks)]), self, NewRow(n, req, now), fault, now)
  {
    var written := n.(blobs := n.blobs[req.filepath := Flatten(req.chunks)]);
    assert written.blobs - {req.filepath} == n.blobs - {req.filepath};
  }

  class NodeServer {
    const self: string
    var objects: map<nat, Row>
    var nextObject: nat
    var buckets: map<nat, Bucket>
    var nextBucket: nat
    var peers: seq<Peer>
    var jobs: map<nat, Job>
    var nextJob: nat
    var batch: seq<Claimed>
    var blobs: map<string, Bytes>

    /** A node before its first upload, with its configured buckets and peers. */
    constructor (self: string, buckets: map<nat, Bucket>, nextBucket: nat, peers: seq<Peer>)
      ensures this.self == self
      ensures State() == Node(map[], 0, buckets, nextBucket, peers, EMPTY, map[])
    {
      this.self := self;
      objects, nextObject, this.buckets, this.nextBucket, this.peers := map[], 0, buckets, nextBucket, peers;
      jobs, nextJob, batch, blobs := map[], 0, [], map[];
    }

    ghost function State(): Node
      reads this
    {
      Node(objects, nextObject, buckets, nextBucket, peers, Queue(jobs, nextJob, batch), blobs)
    }

    // ----- Queries -----

    method ActiveRow(bucket: nat, key: string) returns (r: Option<nat>)
      requires UniqueKeys(objects)
      ensures r == FindActive(objects, bucket, key)
    {
      if i :| i in objects && Serves(objects[i], bucket, key) {
        FindActiveUnique(objects, bucket, key, i);
        r := Some(i);
      } else {
        r := None;
      }
    }

    method RowAt(filepath: string) returns (r: Option<nat>)
      requires UniquePaths(objects)
      ensures r == FindPath(objects, filepath)
    {
      if i :| i in objects && objects[i].filepath == filepath {
        r := Some(i);
      } else {
        r := None;
      }
    }

    /** `SUM(filesize_bytes)` over the active rows of a bucket. */
    method SumUsed(bucket: nat) returns (used: nat)
      ensures used == UsedBytes(State(), bucket)
    {
      used := 0;
      for i := 0 to nextObject
        invariant used == UsedBelow(objects, bucket, i)
      {
        if i in objects && Active(objects[i]) && objects[i].bucket == bucket { used := used + objects[i].size; }
      }
    }

    /** `check_hard_quota`: growth is free when not positive, otherwise every hard allocation must hold it. */
    method CheckHardQuota(bucket: nat, growth: int) returns (ok: bool)
      requires bucket in buckets
      ensures ok == QuotaAllows(State(), bucket, growth)
      ensures ok <==> growth <= 0 || forall p :: p in buckets[bucket].nodes && buckets[bucket].nodes[p].hard ==>
                        Min(UsedBytes(State(), bucket) + growth, I64_MAX) <= buckets[bucket].nodes[p].bytes
    {
      if growth <= 0 { return true; }
      var used := SumUsed(bucket);
      var projected := SaturatingAdd(used, growth);
      var nodes := buckets[bucket].nodes;
      var left := nodes.Keys;
      while left != {}
        invariant left <= nodes.Keys
        invariant forall p :: p in nodes && p !in left && nodes[p].hard ==> projected <= nodes[p].bytes
        decreases |left|
      {
        var p :| p in left;
        if nodes[p].hard && projected > nodes[p].bytes { return false; }
        left := left - {p};
      }
      ok := true;
    }

    // ----- The outbox -----

    method InsertJob(t: Ticket, now: int)
      modifies this`jobs, this`nextJob
      ensures State() == old(State()).(queue := Push(old(State()).queue, t, now))
    {
      jobs, nextJob := jobs[nextJob := FreshJob(t, now)], nextJob + 1;
    }

    /** One job for every active peer of the object's bucket, as long as the row is there. */
    method Enqueue(oid: nat, filepath: string, etag: Etag, op: Operation, now: int)
      modifies this`jobs, this`nextJob
      ensures State() == EnqueueForPeers(old(State()), self, oid, filepath, etag, op, now)
    {
      if oid in objects && objects[oid].bucket in buckets {
        var b := buckets[objects[oid].bucket];
        var all := peers;
        ghost var q := State().queue;
        for i := 0 to |all|
          invariant State() == old(State()).(queue := PushAll(q, Tickets(Receivers(all[..i], b, self), oid, filepath, etag, op), now))
        {
          QueueNext(q, all[..i], all[i], b, self, oid, filepath, etag, op, now);
          assert all[..i + 1] == all[..i] + [all[i]];
          if all[i].active && all[i].id != self && Receives(b, all[i].id) {
            InsertJob(Ticket(all[i].id, oid, filepath, etag, op), now);
          }
        }
        assert all[..|all|] == all;
      }
    }

    /** One `UPDATE ... SET status = 'IN_FLIGHT'` per job. */
    method MarkClaimed(ids: seq<nat>)
      requires forall id :: id in ids ==> id in jobs
      modifies this`jobs
      ensures jobs == MarkInFlight(old(jobs), set id | id in ids)
    {
      for i := 0 to |ids|
        invariant jobs == MarkInFlight(old(jobs), set id | id in ids[..i])
      {
        assert ids[i] in ids;
        assert ids[..i + 1] == ids[..i] + [ids[i]];
        jobs := jobs[ids[i] := jobs[ids[i]].(status := InFlight)];
      }
      assert ids[..|ids|] == ids;
    }

    /** `claim_outbox_jobs`: the joined query, then one UPDATE per job. */
    method ClaimOutboxJobs(now: int)
      requires batch == []
      modifies this`jobs, this`batch
      ensures State() == ClaimJobs(old(State()), now)
    {
      var n := Node(objects, nextObject, buckets, nextBucket, peers, Queue(jobs, nextJob, []), blobs);
      var ids := ClaimIds(n.queue, now, ActivePeers(n));
      batch := Views(ids, jobs, JoinedMeta(n));
      MarkClaimed(ids);
    }

    method CompleteOutboxJob(id: nat)
      modifies this`jobs
      ensures State() == old(State()).(queue := Complete(old(State()).queue, id))
    {
      jobs := jobs - {id};
    }

    method FailOutboxJob(id: nat, now: int)
      modifies this`jobs
      ensures State() == old(State()).(queue := Fail(old(State()).queue, id, now))
    {
      if id in jobs {
        var j := jobs[id];
        jobs := jobs[id := j.(status := Failed, attempts := j.attempts + 1, nextRetry := now + (j.attempts + 1) * BACKOFF_SECONDS)];
      }
    }

    // ----- The blob directory -----

    method Unlink(filepath: string)
      modifies this`blobs
      ensures blobs == old(blobs) - {filepath}
    {
      blobs := blobs - {filepath};
    }

    /** Write a stream that may break after some chunks. */
    method WriteChunks(filepath: string, chunks: seq<Bytes>, alg: EtagType) returns (etag: Etag, total: nat)
      modifies this`blobs
      ensures blobs == old(blobs)[filepath := Flatten(chunks)]
      ensures etag == Digest(alg, Flatten(chunks)) && total == |Flatten(chunks)|
    {
      var hasher := new StreamingHasher(alg);
      blobs, total := blobs[filepath := []], 0;
      for i := 0 to |chunks|
        invariant hasher.alg == alg && hasher.absorbed == Flatten(chunks[..i])
        invariant blobs == old(blobs)[filepath := Flatten(chunks[..i])] && total == |Flatten(chunks[..i])|
      {
        FlattenSnoc(chunks[..i], chunks[i]);
        assert chunks[..i] + [chunks[i]] == chunks[..i + 1];
        blobs := blobs[filepath := blobs[filepath] + chunks[i]];
        hasher.Update(chunks[i]);
        total := total + |chunks[i]|;
      }
      assert chunks[..|chunks|] == chunks;
      etag := hasher.Finalize();
    }

    /** `put_chunks`: a broken stream leaves what it wrote; a wrong digest removes the file. */
    method PutChunks(filepath: string, chunks: seq<Bytes>, broken: Option<nat>, alg: EtagType, expected: Option<Etag>)
      returns (stored: Option<(nat, Etag)>)
      modifies this`blobs
      ensures if broken.Some? then
                stored.None? && blobs == old(blobs)[filepath := Flatten(if broken.value <= |chunks| then chunks[..broken.value] else chunks)]
              else if expected.Some? && expected.value != Digest(alg, Flatten(chunks)) then
                stored.None? && blobs == old(blobs) - {filepath}
              else
                stored == Some((|Flatten(chunks)|, Digest(alg, Flatten(chunks)))) && blobs == old(blobs)[filepath := Flatten(chunks)]
    {
      var arrived := if broken.Some? && broken.value <= |chunks| then chunks[..broken.value] else chunks;
      var etag, total := WriteChunks(filepath, arrived, alg);
      if broken.Some? {
        stored := None;
      } else if expected.Some? && expected.value != etag {
        Unlink(filepath);
        stored := None;
      } else {
        stored := Some((total, etag));
      }
    }

    /** `hash_filepath`: read the file buffer by buffer, and once more for its end; one of the reads may fail. */
    method HashFilepath(filepath: string, alg: EtagType, readFault: Option<nat>) returns (etag: Option<Etag>)
      ensures etag == if filepath in blobs && ReadsThrough(|blobs[filepath]|, readFault) then Some(Digest(alg, blobs[filepath])) else None
    {
      if filepath !in blobs { return None; }
      var file := blobs[filepath];
      var hasher := new StreamingHasher(alg);
      var at, count := 0, 0;
      while at < |file|
        invariant at == (if count * BUFFER <= |file| then count * BUFFER else |file|) && count * BUFFER < |file| + BUFFER
        invariant hasher.alg == alg && hasher.absorbed == file[..at]
        invariant readFault.Some? ==> count <= readFault.value
      {
        if readFault == Some(count) { return None; }
        var n := if |file| - at < BUFFER then |file| - at else BUFFER;
        assert file[..at] + file[at..at + n] == file[..at + n];
        hasher.Update(file[at..at + n]);
        at, count := at + n, count + 1;
      }
      if readFault == Some(count) { return None; }
      assert file[..at] == file;
      var digest := hasher.Finalize();
      etag := Some(digest);
    }

    /** The payload stream of `replicate_put`: buffers of the file until its end or a read error; nothing when the file
        cannot be opened. */
    method StreamBlob(filepath: string, readFault: Option<nat>) returns (chunks: seq<Bytes>)
      ensures MaySend(State(), filepath, chunks)
      ensures Flatten(chunks) == if filepath !in blobs then []
                                 else if readFault == None || |blobs[filepath]| <= readFault.value * 65536 then blobs[filepath]
                                 else blobs[filepath][..readFault.value * 65536]
    {
      chunks := [];
      if filepath !in blobs { return; }
      var file := blobs[filepath];
      var at := 0;
      while at < |file| && readFault != Some(|chunks|)
        invariant at == (if |chunks| * BUFFER <= |file| then |chunks| * BUFFER else |file|) && Flatten(chunks) == file[..at]
        invariant readFault.Some? ==> |chunks| <= readFault.value
        decreases |file| - at
      {
        var n := if |file| - at < BUFFER then |file| - at else BUFFER;
        FlattenSnoc(chunks, file[at..at + n]);
        assert file[..at] + file[at..at + n] == file[..at + n];
        chunks := chunks + [file[at..at + n]];
        at := at + n;
      }
    }

    // ----- PUT -----

    /** The transaction of an upload: insert and enqueue, or roll both back. */
    method InsertAndEnqueue(row: Row, fault: PutFault, now: int) returns (ok: bool)
      requires UniquePaths(objects)
      modifies this`objects, this`nextObject, this`jobs, this`nextJob
      ensures ok == !(fault.InsertFault? || fault.EnqueueFault? || fault.CommitFault? || PathTaken(old(objects), row.filepath))
      ensures State() == if ok then EnqueueForPeers(old(State()).(objects := old(objects)[old(nextObject) := row], nextObject := old(nextObject) + 1),
                                                    self, old(nextObject), row.filepath, row.etag, Put, now)
                         else old(State())
    {
      var saved := (objects, nextObject, jobs, nextJob);
      var clash := RowAt(row.filepath);
      if fault.InsertFault? || clash.Some? { return false; }
      objects, nextObject := objects[nextObject := row], nextObject + 1;
      if fault.EnqueueFault? {
        objects, nextObject := saved.0, saved.1;
        return false;
      }
      Enqueue(saved.1, row.filepath, row.etag, Put, now);
      if fault.CommitFault? {
        objects, nextObject, jobs, nextJob := saved.0, saved.1, saved.2, saved.3;
        return false;
      }
      ok := true;
    }

    /** Begin, look up the object being replaced, and check the quota for the difference. */
    method CheckUpload(bucket: nat, key: string, size: nat, fault: PutFault) returns (previous: Option<nat>, refusal: Option<PutOutcome>)
      requires UniqueKeys(objects) && bucket in buckets
      ensures previous == FindActive(objects, bucket, key)
      ensures refusal ==
                if fault.BeginFault? || fault.LookupFault? || fault.QuotaFault? then Some(Aborted)
                else if !QuotaAllows(State(), bucket, size - ReplacedSize(State(), bucket, key)) then Some(QuotaExceeded)
                else if fault.SoftDeleteFault? then Some(Aborted) else None
    {
      previous := ActiveRow(bucket, key);
      if fault.BeginFault? || fault.LookupFault? || fault.QuotaFault? { return previous, Some(Aborted); }
      var replaced := if previous.Some? then objects[previous.value].size else 0;
      var allowed := CheckHardQuota(bucket, size - replaced);
      refusal := if !allowed then Some(QuotaExceeded) else if fault.SoftDeleteFault? then Some(Aborted) else None;
    }

    /** Recycle the replaced row, outside the transaction, then run the transaction. */
    method ReplaceRow(row: Row, previous: Option<nat>, fault: PutFault, now: int) returns (ok: bool)
      requires Sound(State()) && previous == FindActive(objects, row.bucket, row.key)
      modifies this`objects, this`nextObject, this`jobs, this`nextJob
      ensures var recycled := RecycleActive(old(objects), row.bucket, row.key, now);
        && ok == !(fault.InsertFault? || fault.EnqueueFault? || fault.CommitFault? || PathTaken(recycled, row.filepath))
        && State() == if ok then EnqueueForPeers(old(State()).(objects := recycled[old(nextObject) := row], nextObject := old(nextObject) + 1),
                                                 self, old(nextObject), row.filepath, row.etag, Put, now)
                      else old(State()).(objects := recycled)
    {
      RecycleFrees(objects, row.bucket, row.key, now);
      ShrinkingKeepsUnique(objects, RecycleActive(objects, row.bucket, row.key, now));
      if previous.Some? { objects := Recycle(objects, previous.value, now); }
      ok := InsertAndEnqueue(row, fault, now);
    }

    /** Everything after the blob was written; every failure from here on removes it. */
    method FinishUpload(row: Row, fault: PutFault, now: int) returns (outcome: PutOutcome)
      requires Sound(State()) && row.bucket in buckets
      modifies this`objects, this`nextObject, this`jobs, this`nextJob, this`blobs
      ensures State() == AfterWrite(old(State()), self, row, fault, now).0
      ensures outcome == AfterWrite(old(State()), self, row, fault, now).1
    {
      var previous, refusal := CheckUpload(row.bucket, row.key, row.size, fault);
      if refusal.Some? {
        Unlink(row.filepath);
        return refusal.value;
      }
      var id := nextObject;
      var ok := ReplaceRow(row, previous, fault, now);
      if ok {
        outcome := Stored(id);
      } else {
        Unlink(row.filepath);
        outcome := Aborted;
      }
    }

    /** `put_object_keyed_in_bucket`. */
    method PutUpload(req: PutRequest, fault: PutFault, now: int) returns (outcome: PutOutcome)
      requires Sound(State())
      modifies this`objects, this`nextObject, this`jobs, this`nextJob, this`blobs
      ensures State() == PutObject(old(State()), self, req, fault, now).0
      ensures outcome == PutObject(old(State()), self, req, fault, now).1
    {
      if req.bucket !in buckets { return BucketMissing; }
      var alg := if req.alg.Some? then req.alg.value else buckets[req.bucket].etagType;
      var stored := PutChunks(req.filepath, req.chunks, if fault.StreamFault? then Some(fault.chunks) else None, alg, None);
      if stored.None? { return Aborted; }
      var row := Row(req.bucket, req.key, req.filepath, req.format, stored.value.0, alg, stored.value.1, now, now, None);
      PutIsWriteThenRest(old(State()), self, req, fault, now);
      outcome := FinishUpload(row, fault, now);
    }
  }
}
