/** The transactional outbox and the single worker that drains it, as a machine over queue events. */
module Outbox {
  import opened Basics
  import opened Hashing

  /** Jobs claimed per worker tick. */
  const BATCH_LIMIT: nat := 50

  /** Seconds of delay added per failed attempt. */
  const BACKOFF_SECONDS: nat := 30

  datatype Operation = Put | Delete

  datatype Status = Pending | InFlight | Failed

  /** A row of `replication_outbox`. `objectId` is nulled when the object row goes away. */
  datatype Job = Job(peer: string, objectId: Option<nat>, filepath: string, etag: Etag, op: Operation,
                     status: Status, attempts: nat, nextRetry: int)

  /** Object columns joined to a job when it is claimed. */
  datatype Meta = Meta(name: string, filepath: string, format: string, size: int, etagType: EtagType,
                       etag: Etag, uploaded: int, modified: int, bucketName: string)

  /** What the worker holds for a claimed job: a snapshot that later row changes do not touch. */
  datatype Claimed = Claimed(id: nat, peer: string, filepath: string, etag: Etag, op: Operation, meta: Option<Meta>)

  /** The outbox table, its AUTOINCREMENT counter, and what is left of the worker's current batch. */
  datatype Queue = Queue(jobs: map<nat, Job>, next: nat, batch: seq<Claimed>)

  /** A job as a caller asks for it. */
  datatype Ticket = Ticket(peer: string, objectId: nat, filepath: string, etag: Etag, op: Operation)

  const EMPTY: Queue := Queue(map[], 0, [])

  function FreshJob(t: Ticket, now: int): Job {
    Job(t.peer, Some(t.objectId), t.filepath, t.etag, t.op, Pending, 0, now)
  }

  function Push(q: Queue, t: Ticket, now: int): Queue {
    q.(jobs := q.jobs[q.next := FreshJob(t, now)], next := q.next + 1)
  }

  function PushAll(q: Queue, ts: seq<Ticket>, now: int): Queue
    decreases |ts|
  {
    if ts == [] then q else PushAll(Push(q, ts[0], now), ts[1..], now)
  }

  /** `ON DELETE SET NULL` for a removed object row. */
  function Detach(q: Queue, oid: nat): Queue {
    q.(jobs := map id | id in q.jobs ::
         if q.jobs[id].objectId == Some(oid) then q.jobs[id].(objectId := None) else q.jobs[id])
  }

  predicate Eligible(j: Job, now: int, active: set<string>) {
    j.status != InFlight && j.nextRetry <= now && j.peer in active
  }

  function EligibleIds(q: Queue, now: int, active: set<string>): set<nat> {
    set id | id in q.jobs && Eligible(q.jobs[id], now, active)
  }

  function Take(s: seq<nat>, k: nat): seq<nat> {
    if |s| <= k then s else s[..k]
  }

  function ClaimIds(q: Queue, now: int, active: set<string>): (ids: seq<nat>)
    ensures forall id :: id in ids ==> id in EligibleIds(q, now, active)
  {
    AscendingMembers(EligibleIds(q, now, active), q.next);
    Take(Ascending(EligibleIds(q, now, active), q.next), BATCH_LIMIT)
  }

  /** The `LEFT JOIN object` of the claim query. */
  function View(id: nat, j: Job, meta: map<nat, Meta>): Claimed {
    Claimed(id, j.peer, j.filepath, j.etag, j.op,
            if j.objectId.Some? && j.objectId.value in meta then Some(meta[j.objectId.value]) else None)
  }

  function Views(ids: seq<nat>, jobs: map<nat, Job>, meta: map<nat, Meta>): (v: seq<Claimed>)
    requires forall id :: id in ids ==> id in jobs
    ensures |v| == |ids|
    ensures forall i :: 0 <= i < |v| ==> v[i] == View(ids[i], jobs[ids[i]], meta)
  {
    if ids == [] then [] else [View(ids[0], jobs[ids[0]], meta)] + Views(ids[1..], jobs, meta)
  }

  function MarkInFlight(jobs: map<nat, Job>, ids: set<nat>): map<nat, Job> {
    map id | id in jobs :: if id in ids then jobs[id].(status := InFlight) else jobs[id]
  }

  function Claim(q: Queue, now: int, active: set<string>, meta: map<nat, Meta>): Queue {
    var ids := ClaimIds(q, now, active);
    q.(jobs := MarkInFlight(q.jobs, set id | id in ids), batch := Views(ids, q.jobs, meta))
  }

  function Complete(q: Queue, id: nat): Queue {
    q.(jobs := q.jobs - {id})
  }

  /** Both assignments of the failing UPDATE read the old attempt count. */
  function Fail(q: Queue, id: nat, now: int): Queue {
    if id !in q.jobs then q
    else
      var j := q.jobs[id];
      q.(jobs := q.jobs[id := j.(status := Failed, attempts := j.attempts + 1,
                                 nextRetry := now + (j.attempts + 1) * BACKOFF_SECONDS)])
  }

  /** The worker disposes of the head of its batch after the RPC returned. */
  function Finish(q: Queue, ok: bool, now: int): Queue
    requires q.batch != []
  {
    var q' := q.(batch := q.batch[1..]);
    if ok then Complete(q', q.batch[0].id) else Fail(q', q.batch[0].id, now)
  }

  /** The worker goes on without having recorded anything about the head of its batch. */
  function Forget(q: Queue): Queue
    requires q.batch != []
  {
    q.(batch := q.batch[1..])
  }

  /** `recorded` is false when the statement that completes or fails the job fails. A restart loses the batch. */
  datatype Event =
    | Enqueued(ticket: Ticket, at: int)
    | Detached(oid: nat)
    | Claiming(at: int, active: set<string>, meta: map<nat, Meta>)
    | Finished(ok: bool, recorded: bool, at: int)
    | Restarted

  /** A new batch is claimed only after the previous one has been worked off. */
  predicate Enabled(q: Queue, e: Event) {
    match e
    case Claiming(_, _, _) => q.batch == []
    case Finished(_, _, _) => q.batch != []
    case _ => true
  }

  function Next(q: Queue, e: Event): Queue
    requires Enabled(q, e)
  {
    match e
    case Enqueued(t, at) => Push(q, t, at)
    case Detached(oid) => Detach(q, oid)
    case Claiming(at, active, meta) => Claim(q, at, active, meta)
    case Finished(ok, recorded, at) => if recorded then Finish(q, ok, at) else Forget(q)
    case Restarted => q.(batch := [])
  }

  predicate Legal(q: Queue, es: seq<Event>)
    decreases |es|
  {
    es == [] || (Enabled(q, es[0]) && Legal(Next(q, es[0]), es[1..]))
  }

  function Run(q: Queue, es: seq<Event>): Queue
    requires Legal(q, es)
    decreases |es|
  {
    if es == [] then q else Run(Next(q, es[0]), es[1..])
  }

  lemma {:induction false} RunAppend(q: Queue, es: seq<Event>, fs: seq<Event>)
    requires Legal(q, es) && Legal(Run(q, es), fs)
    ensures Legal(q, es + fs) && Run(q, es + fs) == Run(Run(q, es), fs)
    decreases |es|
  {
    if es == [] {
      assert es + fs == fs;
    } else {
      RunAppend(Next(q, es[0]), es[1..], fs);
      assert (es + fs)[1..] == es[1..] + fs;
    }
  }
}
