/** Safety of the outbox over whole runs: nothing is lost, delivery is in order, retries back off.
    The audit records what happened next to the queue; no transition ever reads the record. */
module OutboxAudit {
  import opened Basics
  import opened Outbox

  /** One RPC the worker finished: its job, the job's peer, whether it was acknowledged and recorded as such, and when. */
  datatype Attempt = Attempt(id: nat, peer: string, ok: bool, at: int)

  /** `dropped` are the jobs the worker went on from, or lost in a restart, without a record. */
  datatype Audit = Audit(q: Queue, ledger: seq<Ticket>, log: seq<Attempt>, dropped: set<nat>)

  const START: Audit := Audit(EMPTY, [], [], {})

  function BatchIds(batch: seq<Claimed>): set<nat> {
    set k | 0 <= k < |batch| :: batch[k].id
  }

  /** The jobs an event makes the worker forget. */
  function DroppedBy(q: Queue, e: Event): set<nat>
    requires Enabled(q, e)
  {
    match e
    case Finished(_, recorded, _) => if recorded then {} else {q.batch[0].id}
    case Restarted => BatchIds(q.batch)
    case _ => {}
  }

  function Observe(a: Audit, e: Event): Audit
    requires Enabled(a.q, e)
  {
    Audit(Next(a.q, e),
          if e.Enqueued? then a.ledger + [e.ticket] else a.ledger,
          if e.Finished? then a.log + [Attempt(a.q.batch[0].id, a.q.batch[0].peer, e.ok && e.recorded, e.at)] else a.log,
          a.dropped + DroppedBy(a.q, e))
  }

  function Watch(a: Audit, es: seq<Event>): Audit
    requires Legal(a.q, es)
    decreases |es|
  {
    if es == [] then a else Watch(Observe(a, es[0]), es[1..])
  }

  lemma {:induction false} WatchIsRun(a: Audit, es: seq<Event>)
    requires Legal(a.q, es)
    ensures Watch(a, es).q == Run(a.q, es)
    decreases |es|
  {
    if es != [] { WatchIsRun(Observe(a, es[0]), es[1..]); }
  }

  /** Ids whose handler succeeded and whose acknowledgement arrived and was recorded. */
  function Acked(log: seq<Attempt>): set<nat> {
    if log == [] then {}
    else
      var last := log[|log| - 1];
      Acked(log[..|log| - 1]) + (if last.ok then {last.id} else {})
  }

  /** Acknowledged ids of one peer, in the order they were acknowledged. */
  function AppliedTo(log: seq<Attempt>, peer: string): seq<nat> {
    if log == [] then []
    else
      var last := log[|log| - 1];
      AppliedTo(log[..|log| - 1], peer) + (if last.ok && last.peer == peer then [last.id] else [])
  }

  /** The times at which a job was tried. */
  function Tries(log: seq<Attempt>, id: nat): seq<int> {
    if log == [] then []
    else
      var last := log[|log| - 1];
      Tries(log[..|log| - 1], id) + (if last.id == id then [last.at] else [])
  }

  function Failures(log: seq<Attempt>, id: nat): nat {
    if log == [] then 0
    else
      var last := log[|log| - 1];
      Failures(log[..|log| - 1], id) + (if last.id == id && !last.ok then 1 else 0)
  }

  lemma LogStep(log: seq<Attempt>, last: Attempt)
    ensures Acked(log + [last]) == Acked(log) + (if last.ok then {last.id} else {})
    ensures forall p :: AppliedTo(log + [last], p) == AppliedTo(log, p) + (if last.ok && last.peer == p then [last.id] else [])
    ensures forall id :: Tries(log + [last], id) == Tries(log, id) + (if last.id == id then [last.at] else [])
    ensures forall id :: Failures(log + [last], id) == Failures(log, id) + (if last.id == id && !last.ok then 1 else 0)
  {
    assert (log + [last])[..|log|] == log;
  }

  predicate InBatch(q: Queue, id: nat) {
    exists k :: 0 <= k < |q.batch| && q.batch[k].id == id
  }

  ghost predicate Matches(j: Job, t: Ticket) {
    j.peer == t.peer && j.filepath == t.filepath && j.etag == t.etag && j.op == t.op
  }

  /** A claimed snapshot still describes its row. */
  ghost predicate Held(q: Queue, c: Claimed) {
    && c.id in q.jobs
    && q.jobs[c.id].status == InFlight
    && c.peer == q.jobs[c.id].peer
    && c.filepath == q.jobs[c.id].filepath
    && c.etag == q.jobs[c.id].etag
    && c.op == q.jobs[c.id].op
  }

  /** IN_FLIGHT rows that the worker does not hold. */
  ghost function Stranded(q: Queue): set<nat> {
    set i | i in q.jobs && q.jobs[i].status == InFlight && !InBatch(q, i)
  }

  /** The worker's batch is IN_FLIGHT rows in id order. */
  ghost predicate Flight(q: Queue) {
    && (forall k :: 0 <= k < |q.batch| ==> Held(q, q.batch[k]))
    && (forall k, l :: 0 <= k < l < |q.batch| ==> q.batch[k].id < q.batch[l].id)
    && (forall i :: i in q.jobs ==> i < q.next)
  }

  /** Every id ever enqueued is either still in the table, as it was asked for, or acknowledged; never both. */
  ghost predicate Ledger(a: Audit) {
    && a.q.next == |a.ledger|
    && a.q.jobs.Keys !! Acked(a.log)
    && (forall i: nat :: i < a.q.next <==> i in a.q.jobs || i in Acked(a.log))
    && (forall i :: i in a.q.jobs ==> Matches(a.q.jobs[i], a.ledger[i]))
  }

  /** And the IN_FLIGHT rows are the rest of the batch and the dropped jobs. */
  ghost predicate Accounted(a: Audit) {
    Ledger(a) && Flight(a.q) && Stranded(a.q) == a.dropped
  }

  /** A claim takes the eligible jobs with the lowest ids, in id order, and stops only at the batch limit. */
  lemma ClaimTakesOldest(q: Queue, now: int, active: set<string>)
    requires forall i :: i in q.jobs ==> i < q.next
    ensures var ids := ClaimIds(q, now, active);
      && StrictlyAscending(ids)
      && |ids| <= BATCH_LIMIT
      && (forall k :: 0 <= k < |ids| ==> ids[k] in EligibleIds(q, now, active))
      && (forall e :: e in EligibleIds(q, now, active) && e !in ids ==>
            |ids| == BATCH_LIMIT && forall k :: 0 <= k < |ids| ==> ids[k] < e)
  {
    var all := Ascending(EligibleIds(q, now, active), q.next);
    var ids := ClaimIds(q, now, active);
    AscendingMembers(EligibleIds(q, now, active), q.next);
    assert forall k :: 0 <= k < |ids| ==> ids[k] in ids;
    forall e | e in EligibleIds(q, now, active) && e !in ids
      ensures |ids| == BATCH_LIMIT && forall k :: 0 <= k < |ids| ==> ids[k] < e
    {
      assert e in all;
      assert ids == Take(all, BATCH_LIMIT);
      if |all| > BATCH_LIMIT {
        assert all == ids + all[BATCH_LIMIT..];
        var m :| BATCH_LIMIT <= m < |all| && all[m] == e;
      }
    }
  }

  lemma BatchAfterClaim(q: Queue, now: int, active: set<string>, meta: map<nat, Meta>)
    ensures forall i :: InBatch(Claim(q, now, active, meta), i) <==> i in ClaimIds(q, now, active)
  {
    var ids := ClaimIds(q, now, active);
    var after := Claim(q, now, active, meta);
    assert forall k :: 0 <= k < |ids| ==> after.batch[k].id == ids[k];
    forall i | i in ids ensures InBatch(after, i) {
      var k :| 0 <= k < |ids| && ids[k] == i;
      assert after.batch[k].id == i;
    }
  }

  lemma BatchAfterHead(q: Queue, ok: bool, now: int)
    requires q.batch != []
    ensures forall i :: i != q.batch[0].id ==> (InBatch(Finish(q, ok, now), i) <==> InBatch(q, i))
    ensures forall i :: i != q.batch[0].id ==> (InBatch(Forget(q), i) <==> InBatch(q, i))
  {
    var rest := q.batch[1..];
    assert forall k :: 0 <= k < |rest| ==> rest[k] == q.batch[k + 1];
    forall i | i != q.batch[0].id && InBatch(q, i) ensures InBatch(Finish(q, ok, now), i) && InBatch(Forget(q), i) {
      var k :| 0 <= k < |q.batch| && q.batch[k].id == i;
      assert rest[k - 1].id == i;
    }
  }

  lemma ClaimStrandsNone(q: Queue, now: int, active: set<string>, meta: map<nat, Meta>)
    requires q.batch == []
    ensures Stranded(Claim(q, now, active, meta)) == Stranded(q)
  {
    BatchAfterClaim(q, now, active, meta);
    assert forall i :: !InBatch(q, i);
  }

  lemma FlightClaim(q: Queue, now: int, active: set<string>, meta: map<nat, Meta>)
    requires Flight(q) && q.batch == []
    ensures Flight(Claim(q, now, active, meta))
    ensures Stranded(Claim(q, now, active, meta)) == Stranded(q)
  {
    var q' := Claim(q, now, active, meta);
    var ids := ClaimIds(q, now, active);
    ClaimStrandsNone(q, now, active, meta);
    ClaimTakesOldest(q, now, active);
    forall k | 0 <= k < |ids|
      ensures Held(q', q'.batch[k]) && q'.batch[k].id == ids[k]
    {
      assert ids[k] in ids;
    }
  }

  lemma FlightFinish(q: Queue, ok: bool, now: int)
    requires Flight(q) && q.batch != []
    ensures Flight(Finish(q, ok, now))
    ensures Stranded(Finish(q, ok, now)) == Stranded(q)
  {
    var q' := Finish(q, ok, now);
    assert forall k :: 0 <= k < |q'.batch| ==> q'.batch[k] == q.batch[k + 1];
    BatchAfterHead(q, ok, now);
    assert InBatch(q, q.batch[0].id);
  }

  lemma FlightForget(q: Queue)
    requires Flight(q) && q.batch != []
    ensures Flight(Forget(q))
    ensures Stranded(Forget(q)) == Stranded(q) + {q.batch[0].id}
  {
    var q' := Forget(q);
    assert forall k :: 0 <= k < |q'.batch| ==> q'.batch[k] == q.batch[k + 1];
    BatchAfterHead(q, true, 0);
    assert Held(q, q.batch[0]);
  }

  lemma FlightRestart(q: Queue)
    requires Flight(q)
    ensures Flight(q.(batch := []))
    ensures Stranded(q.(batch := [])) == Stranded(q) + BatchIds(q.batch)
  {
    forall i ensures InBatch(q, i) <==> i in BatchIds(q.batch) {}
    forall i | i in BatchIds(q.batch) ensures i in q.jobs && q.jobs[i].status == InFlight {
      var k :| 0 <= k < |q.batch| && q.batch[k].id == i;
      assert Held(q, q.batch[k]);
    }
  }

  lemma FlightQuiet(q: Queue, e: Event)
    requires Flight(q) && (e.Enqueued? || e.Detached?)
    ensures Flight(Next(q, e)) && Stranded(Next(q, e)) == Stranded(q)
  {
    assert Next(q, e).batch == q.batch;
    assert forall i :: InBatch(Next(q, e), i) <==> InBatch(q, i);
  }

  /** Every event keeps the batch IN_FLIGHT and in order, and strands exactly the jobs it makes the worker forget. */
  lemma FlightStep(q: Queue, e: Event)
    requires Flight(q) && Enabled(q, e)
    ensures Flight(Next(q, e)) && Stranded(Next(q, e)) == Stranded(q) + DroppedBy(q, e)
  {
    match e {
      case Claiming(at, active, meta) => FlightClaim(q, at, active, meta);
      case Finished(ok, recorded, at) => if recorded { FlightFinish(q, ok, at); } else { FlightForget(q); }
      case Restarted => FlightRestart(q);
      case _ => FlightQuiet(q, e);
    }
  }

  /** An acknowledged id moves from the table to the acknowledged set. */
  lemma MovesToAcked(jobs: map<nat, Job>, acked: set<nat>, next: nat, id: nat)
    requires id in jobs && jobs.Keys !! acked && forall i: nat :: i < next <==> i in jobs || i in acked
    ensures (jobs - {id}).Keys !! acked + {id} && forall i: nat :: i < next <==> i in jobs - {id} || i in acked + {id}
  {
  }

  lemma LedgerAcked(a: Audit, e: Event)
    requires Accounted(a) && Enabled(a.q, e) && e.Finished? && e.recorded && e.ok
    ensures Ledger(Observe(a, e))
  {
    var head := a.q.batch[0];
    assert Held(a.q, head);
    LogStep(a.log, Attempt(head.id, head.peer, e.ok && e.recorded, e.at));
    MovesToAcked(a.q.jobs, Acked(a.log), a.q.next, head.id);
    var b := Observe(a, e);
    assert b.q.jobs == a.q.jobs - {head.id} && Acked(b.log) == Acked(a.log) + {head.id};
  }

  lemma LedgerFailed(a: Audit, e: Event)
    requires Accounted(a) && Enabled(a.q, e) && e.Finished? && !(e.recorded && e.ok)
    ensures Ledger(Observe(a, e))
  {
    var head := a.q.batch[0];
    assert Held(a.q, head);
    LogStep(a.log, Attempt(head.id, head.peer, e.ok && e.recorded, e.at));
    var b := Observe(a, e);
    assert b.q.jobs.Keys == a.q.jobs.Keys && Acked(b.log) == Acked(a.log);
  }

  lemma LedgerFinish(a: Audit, e: Event)
    requires Accounted(a) && Enabled(a.q, e) && e.Finished?
    ensures Ledger(Observe(a, e))
  {
    if e.ok && e.recorded { LedgerAcked(a, e); } else { LedgerFailed(a, e); }
  }

  lemma LedgerStep(a: Audit, e: Event)
    requires Accounted(a) && Enabled(a.q, e)
    ensures Ledger(Observe(a, e))
  {
    if e.Finished? {
      LedgerFinish(a, e);
    } else if e.Enqueued? {
      LedgerEnqueue(a, e);
    } else {
      assert Observe(a, e).q.jobs.Keys == a.q.jobs.Keys;
    }
  }

  lemma LedgerEnqueue(a: Audit, e: Event)
    requires Accounted(a) && e.Enqueued?
    ensures Ledger(Observe(a, e))
  {
  }

  lemma {:induction false} AccountedRun(a: Audit, es: seq<Event>)
    requires Accounted(a) && Legal(a.q, es)
    ensures Accounted(Watch(a, es))
    decreases |es|
  {
    if es != [] {
      LedgerStep(a, es[0]);
      FlightStep(a.q, es[0]);
      AccountedRun(Observe(a, es[0]), es[1..]);
    }
  }

  /** Over every run with any mix of failures, lost records and restarts: jobs enqueued = jobs outstanding + jobs
      acknowledged, and the IN_FLIGHT rows are the rest of the worker's batch and the jobs dropped on the way. */
  lemma NoJobLost(es: seq<Event>)
    requires Legal(EMPTY, es)
    ensures Accounted(Watch(START, es))
  {
    AccountedRun(START, es);
  }

  // ----- Order of delivery -----

  /** The clock after an event, for runs whose event times never go back. */
  function Clock(clock: int, e: Event): int {
    match e
    case Enqueued(_, at) => at
    case Detached(_) => clock
    case Claiming(at, _, _) => at
    case Finished(_, _, at) => at
    case Restarted => clock
  }

  predicate Timely(clock: int, es: seq<Event>)
    decreases |es|
  {
    es == [] || (clock <= Clock(clock, es[0]) && Timely(Clock(clock, es[0]), es[1..]))
  }

  /** No RPC in the run failed, every one was recorded, and the worker was not restarted. */
  predicate FaultFree(es: seq<Event>) {
    forall i :: 0 <= i < |es| ==> !es[i].Restarted? && (es[i].Finished? ==> es[i].ok && es[i].recorded)
  }

  /** The ids enqueued for a peer, oldest first. */
  function EnqueuedFor(ledger: seq<Ticket>, peer: string): seq<nat> {
    Ascending(EnqueuedIds(ledger, peer), |ledger|)
  }

  ghost function Done(a: Audit, peer: string): set<nat> {
    set i | i in Acked(a.log) && i < |a.ledger| && a.ledger[i].peer == peer
  }

  function EndClock(clock: int, es: seq<Event>): int
    decreases |es|
  {
    if es == [] then clock else EndClock(Clock(clock, es[0]), es[1..])
  }

  /** Per peer: acknowledged ids are older than outstanding ones, and claimed ids older than waiting ones. */
  ghost predicate PeerOrdered(a: Audit, clock: int) {
    && a.dropped == {}
    && (forall i :: i in a.q.jobs ==> a.q.jobs[i].status != Failed && a.q.jobs[i].nextRetry <= clock)
    && (forall i, p :: i in Done(a, p) ==> forall j :: j in a.q.jobs && a.q.jobs[j].peer == p ==> i < j)
    && (forall i, j :: (i in a.q.jobs && j in a.q.jobs && a.q.jobs[i].peer == a.q.jobs[j].peer &&
          a.q.jobs[i].status == InFlight && a.q.jobs[j].status == Pending) ==> i < j)
  }

  ghost predicate AppliedAscending(a: Audit) {
    forall p :: AppliedTo(a.log, p) == Ascending(Done(a, p), a.q.next)
  }

  lemma DoneQuiet(a: Audit, e: Event)
    requires Accounted(a) && Enabled(a.q, e) && !e.Finished?
    ensures forall p :: Done(Observe(a, e), p) == Done(a, p)
  {
    forall p ensures Done(Observe(a, e), p) == Done(a, p) {}
  }

  lemma SortedRecord(a: Audit, clock: int, e: Event)
    requires Accounted(a) && PeerOrdered(a, clock) && clock <= Clock(clock, e) && (e.Enqueued? || e.Detached?)
    ensures PeerOrdered(Observe(a, e), Clock(clock, e))
  {
    DoneQuiet(a, e);
  }

  /** With nothing in flight, a claim puts only older jobs of a peer in flight than it leaves waiting. */
  lemma ClaimedAreOlder(q: Queue, clock: int, e: Event)
    requires Flight(q) && Enabled(q, e) && e.Claiming? && clock <= e.at && Stranded(q) == {}
    requires forall i :: i in q.jobs ==> q.jobs[i].status != Failed && q.jobs[i].nextRetry <= clock
    ensures var after := Next(q, e).jobs;
      forall i, j :: (i in after && j in after && after[i].peer == after[j].peer &&
        after[i].status == InFlight && after[j].status == Pending) ==> i < j
  {
    var after := Next(q, e).jobs;
    var ids := ClaimIds(q, e.at, e.active);
    ClaimTakesOldest(q, e.at, e.active);
    forall i, j | i in after && j in after && after[i].peer == after[j].peer && after[i].status == InFlight && after[j].status == Pending
      ensures i < j
    {
      assert !InBatch(q, i) && i !in Stranded(q);
      assert i in ids && j !in ids;
      assert Eligible(q.jobs[j], e.at, e.active);
    }
  }

  lemma SortedClaim(a: Audit, clock: int, e: Event)
    requires Accounted(a) && PeerOrdered(a, clock) && Enabled(a.q, e) && clock <= Clock(clock, e) && e.Claiming?
    ensures PeerOrdered(Observe(a, e), Clock(clock, e))
  {
    DoneQuiet(a, e);
    ClaimedAreOlder(a.q, clock, e);
  }

  lemma AppliedQuiet(a: Audit, e: Event)
    requires Accounted(a) && AppliedAscending(a) && Enabled(a.q, e) && !e.Finished?
    ensures AppliedAscending(Observe(a, e))
  {
    var b := Observe(a, e);
    DoneQuiet(a, e);
    forall p ensures AppliedTo(b.log, p) == Ascending(Done(b, p), b.q.next) {
      assert AppliedTo(a.log, p) == Ascending(Done(a, p), a.q.next);
      AscendingCut(Done(a, p), Done(a, p), a.q.next, b.q.next);
    }
  }

  /** The head of the batch is its peer's oldest outstanding job. */
  lemma HeadIsOldest(a: Audit, clock: int)
    requires Accounted(a) && PeerOrdered(a, clock) && a.q.batch != []
    ensures forall j :: j in a.q.jobs && a.q.jobs[j].peer == a.q.batch[0].peer && j != a.q.batch[0].id ==> a.q.batch[0].id < j
  {
    assert Held(a.q, a.q.batch[0]);
    forall j | j in a.q.jobs && a.q.jobs[j].peer == a.q.batch[0].peer && j != a.q.batch[0].id
      ensures a.q.batch[0].id < j
    {
      if a.q.jobs[j].status == InFlight { assert InBatch(a.q, j); }
    }
  }

  lemma DoneFinish(a: Audit, e: Event, p: string)
    requires Accounted(a) && e.Finished? && e.ok && e.recorded && Enabled(a.q, e)
    ensures Done(Observe(a, e), p) == Done(a, p) + (if p == a.q.batch[0].peer then {a.q.batch[0].id} else {})
  {
    var head := a.q.batch[0];
    assert Held(a.q, head);
    LogStep(a.log, Attempt(head.id, head.peer, e.ok && e.recorded, e.at));
  }

  lemma SortedFinish(a: Audit, clock: int, e: Event)
    requires Accounted(a) && PeerOrdered(a, clock) && e.Finished? && e.ok && e.recorded && Enabled(a.q, e) && clock <= e.at
    ensures PeerOrdered(Observe(a, e), e.at)
  {
    HeadIsOldest(a, clock);
    forall p { DoneFinish(a, e, p); }
  }

  lemma AppliedFinish(a: Audit, clock: int, e: Event)
    requires Accounted(a) && PeerOrdered(a, clock) && AppliedAscending(a)
    requires e.Finished? && e.ok && e.recorded && Enabled(a.q, e) && clock <= e.at
    ensures AppliedAscending(Observe(a, e))
  {
    var b := Observe(a, e);
    var head := a.q.batch[0];
    assert Held(a.q, head);
    LogStep(a.log, Attempt(head.id, head.peer, e.ok && e.recorded, e.at));
    forall p ensures AppliedTo(b.log, p) == Ascending(Done(b, p), b.q.next) {
      DoneFinish(a, e, p);
      assert b.q.next == a.q.next;
      if p == head.peer {
        AscendingAppend(Done(a, p), head.id, a.q.next);
        assert AppliedTo(b.log, p) == AppliedTo(a.log, p) + [head.id];
      } else {
        assert Done(b, p) == Done(a, p);
      }
    }
  }

  lemma {:induction false} SortedRun(a: Audit, clock: int, es: seq<Event>)
    requires Accounted(a) && PeerOrdered(a, clock) && AppliedAscending(a)
    requires Legal(a.q, es) && Timely(clock, es) && FaultFree(es)
    ensures Accounted(Watch(a, es)) && PeerOrdered(Watch(a, es), EndClock(clock, es)) && AppliedAscending(Watch(a, es))
    decreases |es|
  {
    if es != [] {
      var e := es[0];
      if e.Finished? {
        SortedFinish(a, clock, e);
        AppliedFinish(a, clock, e);
      } else {
        if e.Claiming? { SortedClaim(a, clock, e); } else { SortedRecord(a, clock, e); }
        AppliedQuiet(a, e);
      }
      LedgerStep(a, e);
      FlightStep(a.q, e);
      SortedRun(Observe(a, e), Clock(clock, e), es[1..]);
    }
  }

  function EnqueuedIds(ledger: seq<Ticket>, peer: string): set<nat> {
    set i: nat | i < |ledger| && ledger[i].peer == peer
  }

  lemma AllDone(a: Audit, peer: string)
    requires Accounted(a) && forall i :: i in a.q.jobs ==> a.q.jobs[i].peer != peer
    ensures Done(a, peer) == EnqueuedIds(a.ledger, peer)
  {
  }

  /** What was applied is what was enqueued up to the last applied. */
  lemma DoneUpTo(a: Audit, clock: int, peer: string, last: nat)
    requires Accounted(a) && PeerOrdered(a, clock) && last in Done(a, peer)
    requires forall i :: i in Done(a, peer) ==> i <= last
    ensures forall i :: i in Done(a, peer) <==> i in EnqueuedIds(a.ledger, peer) && i < last + 1
  {
  }

  lemma AppliedPrefix(a: Audit, clock: int, peer: string)
    requires Accounted(a) && PeerOrdered(a, clock) && AppliedAscending(a)
    ensures AppliedTo(a.log, peer) <= EnqueuedFor(a.ledger, peer)
    ensures (forall i :: i in a.q.jobs ==> a.q.jobs[i].peer != peer) ==>
              AppliedTo(a.log, peer) == EnqueuedFor(a.ledger, peer)
  {
    var enqueued := EnqueuedIds(a.ledger, peer);
    var applied := AppliedTo(a.log, peer);
    assert applied == Ascending(Done(a, peer), a.q.next);
    if forall i :: i in a.q.jobs ==> a.q.jobs[i].peer != peer {
      AllDone(a, peer);
    } else if applied != [] {
      var last := applied[|applied| - 1];
      AscendingLast(Done(a, peer), a.q.next);
      DoneUpTo(a, clock, peer, last);
      AscendingCut(Done(a, peer), enqueued, last + 1, a.q.next);
      AscendingPrefix(enqueued, last + 1, a.q.next);
    }
  }

  /** Fault-free delivery is FIFO per peer: the ids a peer has applied are a prefix of those enqueued for it,
      and all of them once nothing for that peer is outstanding. */
  lemma FaultFreeDeliveryIsFifo(es: seq<Event>, clock: int, peer: string)
    requires Legal(EMPTY, es) && Timely(clock, es) && FaultFree(es)
    ensures var a := Watch(START, es);
      && AppliedTo(a.log, peer) <= EnqueuedFor(a.ledger, peer)
      && ((forall i :: i in a.q.jobs ==> a.q.jobs[i].peer != peer) ==>
            AppliedTo(a.log, peer) == EnqueuedFor(a.ledger, peer))
  {
    assert forall p :: Done(START, p) == {};
    SortedRun(START, clock, es);
    AppliedPrefix(Watch(START, es), EndClock(clock, es), peer);
  }

  // ----- Retry back-off -----

  /** The delays imposed by the first `k` failures, added up. */
  function Backoff(k: nat): nat {
    if k == 0 then 0 else Backoff(k - 1) + k * BACKOFF_SECONDS
  }

  lemma {:induction false} BackoffClosedForm(k: nat)
    ensures Backoff(k) == 15 * k * (k + 1)
  {
    if k > 0 { BackoffClosedForm(k - 1); }
  }

  ghost predicate Spaced(ts: seq<int>) {
    forall k :: 0 <= k < |ts| ==> ts[k] >= ts[0] + Backoff(k)
  }

  lemma SpacedClosedForm(ts: seq<int>)
    requires Spaced(ts)
    ensures forall k :: 0 <= k < |ts| ==> ts[k] >= ts[0] + 15 * k * (k + 1)
  {
    forall k | 0 <= k < |ts|
      ensures ts[k] >= ts[0] + 15 * k * (k + 1)
    {
      BackoffClosedForm(k);
    }
  }

  ghost predicate Patient(a: Audit, clock: int, id: nat) {
    var ts := Tries(a.log, id);
    && Spaced(ts)
    && (id >= a.q.next ==> ts == [] && Failures(a.log, id) == 0)
    && (id in a.q.jobs && id !in a.dropped ==>
          var j := a.q.jobs[id];
          && j.attempts == |ts| == Failures(a.log, id)
          && (ts != [] ==> j.nextRetry >= ts[0] + Backoff(|ts|))
          && (j.status == InFlight ==> j.nextRetry <= clock))
  }

  lemma SpacedAppend(ts: seq<int>, at: int)
    requires Spaced(ts) && (ts != [] ==> at >= ts[0] + Backoff(|ts|))
    ensures Spaced(ts + [at])
  {
  }

  lemma PatientFinish(a: Audit, clock: int, e: Event, id: nat)
    requires Accounted(a) && Patient(a, clock, id) && Enabled(a.q, e) && e.Finished? && clock <= e.at
    ensures Patient(Observe(a, e), e.at, id)
  {
    var head := a.q.batch[0];
    assert Held(a.q, head);
    var b := Observe(a, e);
    assert Tries(b.log, id) == Tries(a.log, id) + (if head.id == id then [e.at] else []) &&
           Failures(b.log, id) == Failures(a.log, id) + (if head.id == id && !(e.ok && e.recorded) then 1 else 0) by {
      LogStep(a.log, Attempt(head.id, head.peer, e.ok && e.recorded, e.at));
    }
    assert InBatch(a.q, head.id);
    if id == head.id {
      assert id !in a.dropped;
      SpacedAppend(Tries(a.log, id), e.at);
    } else {
      assert Tries(b.log, id) == Tries(a.log, id);
    }
  }

  lemma PatientStep(a: Audit, clock: int, e: Event, id: nat)
    requires Accounted(a) && Patient(a, clock, id) && Enabled(a.q, e) && clock <= Clock(clock, e)
    ensures Patient(Observe(a, e), Clock(clock, e), id)
  {
    if e.Finished? { PatientFinish(a, clock, e, id); }
  }

  lemma {:induction false} PatientRun(a: Audit, clock: int, es: seq<Event>, id: nat)
    requires Accounted(a) && Patient(a, clock, id) && Legal(a.q, es) && Timely(clock, es)
    ensures Patient(Watch(a, es), EndClock(clock, es), id)
    decreases |es|
  {
    if es != [] {
      PatientStep(a, clock, es[0], id);
      LedgerStep(a, es[0]);
      FlightStep(a.q, es[0]);
      PatientRun(Observe(a, es[0]), Clock(clock, es[0]), es[1..], id);
    }
  }

  /** A stored attempt count is the number of failures so far (unless the last of them was not recorded), and a job's k-th retry comes at least
      15 * k * (k + 1) seconds after its first attempt, over every run whose clock never goes back. */
  lemma RetriesBackOff(es: seq<Event>, clock: int, id: nat)
    requires Legal(EMPTY, es) && Timely(clock, es)
    ensures var a := Watch(START, es); var ts := Tries(a.log, id);
      && (id in a.q.jobs && id !in a.dropped ==> a.q.jobs[id].attempts == Failures(a.log, id))
      && (forall k :: 0 <= k < |ts| ==> ts[k] >= ts[0] + 15 * k * (k + 1))
  {
    PatientRun(START, clock, es, id);
    SpacedClosedForm(Tries(Watch(START, es).log, id));
  }
}
