/** What becomes of one job: a completed one never returns, a failed one waits out its delay, and one the worker forgot is
    stranded. Every statement is about all later runs of the queue, with lost records and restarts. */
module OutboxJobs {
  import opened Basics
  import opened Outbox
  import opened OutboxAudit

  // ----- Completed -----

  lemma {:induction false} GoneForGood(q: Queue, es: seq<Event>, id: nat)
    requires Flight(q) && Legal(q, es) && id < q.next && id !in q.jobs
    ensures id !in Run(q, es).jobs && !InBatch(Run(q, es), id)
    decreases |es|
  {
    if es != [] {
      FlightStep(q, es[0]);
      GoneForGood(Next(q, es[0]), es[1..], id);
    } else {
      assert forall k :: 0 <= k < |q.batch| ==> Held(q, q.batch[k]);
    }
  }

  /** Once the worker has completed a job, no later run has its row again or hands it to the worker again. */
  lemma CompletedNeverReturns(q: Queue, now: int, es: seq<Event>)
    requires Flight(q) && q.batch != [] && Legal(Finish(q, true, now), es)
    ensures var r := Run(Finish(q, true, now), es); q.batch[0].id !in r.jobs && !InBatch(r, q.batch[0].id)
  {
    assert Held(q, q.batch[0]);
    FlightFinish(q, true, now);
    GoneForGood(Finish(q, true, now), es, q.batch[0].id);
  }

  // ----- Failed -----

  /** The row is FAILED with this count and retry time, and not with the worker. */
  ghost predicate Waits(q: Queue, id: nat, attempts: nat, retry: int) {
    && id in q.jobs && q.jobs[id].status == Failed
    && q.jobs[id].attempts == attempts && q.jobs[id].nextRetry == retry
    && !InBatch(q, id)
  }

  predicate ClaimsBefore(es: seq<Event>, t: int) {
    forall i :: 0 <= i < |es| && es[i].Claiming? ==> es[i].at < t
  }

  lemma ClaimSkipsWaiting(q: Queue, e: Event, id: nat, attempts: nat, retry: int)
    requires Flight(q) && Enabled(q, e) && e.Claiming? && e.at < retry && Waits(q, id, attempts, retry)
    ensures Waits(Next(q, e), id, attempts, retry)
  {
    assert id !in ClaimIds(q, e.at, e.active);
    BatchAfterClaim(q, e.at, e.active, e.meta);
  }

  lemma StepKeepsWaiting(q: Queue, e: Event, id: nat, attempts: nat, retry: int)
    requires Flight(q) && Enabled(q, e) && (e.Claiming? ==> e.at < retry) && Waits(q, id, attempts, retry)
    ensures Waits(Next(q, e), id, attempts, retry)
  {
    if e.Claiming? {
      ClaimSkipsWaiting(q, e, id, attempts, retry);
    } else if e.Finished? {
      BatchAfterHead(q, e.ok, e.at);
    }
  }

  lemma {:induction false} WaitsOn(q: Queue, es: seq<Event>, id: nat, attempts: nat, retry: int)
    requires Flight(q) && Legal(q, es) && ClaimsBefore(es, retry) && Waits(q, id, attempts, retry)
    ensures Waits(Run(q, es), id, attempts, retry)
    decreases |es|
  {
    if es != [] {
      StepKeepsWaiting(q, es[0], id, attempts, retry);
      FlightStep(q, es[0]);
      WaitsOn(Next(q, es[0]), es[1..], id, attempts, retry);
    }
  }

  /** A failed job is out of the worker's hands, with one more attempt on record, until thirty seconds per attempt have
      passed: no run whose claims come earlier hands it out or changes its count or retry time. */
  lemma FailedWaitsOut(q: Queue, now: int, es: seq<Event>)
    requires Flight(q) && q.batch != [] && q.batch[0].id in q.jobs && Legal(Finish(q, false, now), es)
    requires ClaimsBefore(es, now + 30 * (q.jobs[q.batch[0].id].attempts + 1))
    ensures var tried := q.jobs[q.batch[0].id].attempts + 1;
      Waits(Run(Finish(q, false, now), es), q.batch[0].id, tried, now + 30 * tried)
  {
    var id := q.batch[0].id;
    var tried := q.jobs[id].attempts + 1;
    FlightFinish(q, false, now);
    assert forall k :: 0 <= k < |q.batch| - 1 ==> Finish(q, false, now).batch[k] == q.batch[k + 1];
    WaitsOn(Finish(q, false, now), es, id, tried, now + 30 * tried);
  }

  // ----- Due -----

  /** Jobs that a claim would take before this one. */
  function Ahead(q: Queue, now: int, active: set<string>, id: nat): set<nat> {
    set e | e in EligibleIds(q, now, active) && e < id
  }

  lemma PlaceInLine(q: Queue, now: int, active: set<string>, id: nat)
    requires id in EligibleIds(q, now, active) && id < q.next
    ensures var all := Ascending(EligibleIds(q, now, active), q.next); var k := |Ahead(q, now, active, id)|;
      k < |all| && all[k] == id
  {
    var due := EligibleIds(q, now, active);
    AscendingCount(Ahead(q, now, active, id), id);
    AscendingSame(Ahead(q, now, active, id), due, id);
    assert Ascending(due, id + 1) == Ascending(due, id) + [id];
    AscendingPrefix(due, id + 1, q.next);
  }

  /** A job is handed out by a claim exactly when it is PENDING or FAILED, its retry time has come, its peer is active
      and fewer than fifty such jobs are older. */
  lemma ClaimedExactly(q: Queue, now: int, active: set<string>, meta: map<nat, Meta>, id: nat)
    requires id in q.jobs && forall i :: i in q.jobs ==> i < q.next
    ensures InBatch(Claim(q, now, active, meta), id) <==>
              Eligible(q.jobs[id], now, active) && |Ahead(q, now, active, id)| < BATCH_LIMIT
  {
    var all := Ascending(EligibleIds(q, now, active), q.next);
    AscendingMembers(EligibleIds(q, now, active), q.next);
    BatchAfterClaim(q, now, active, meta);
    if Eligible(q.jobs[id], now, active) {
      PlaceInLine(q, now, active, id);
      TakenExactly(all, BATCH_LIMIT, |Ahead(q, now, active, id)|);
    }
  }

  lemma TakenExactly(all: seq<nat>, limit: nat, k: nat)
    requires StrictlyAscending(all) && k < |all|
    ensures all[k] in Take(all, limit) <==> k < limit
  {
    if k < limit { assert Take(all, limit)[k] == all[k]; }
  }

  // ----- Stranded -----

  /** The jobs a run makes the worker forget. */
  function Dropped(q: Queue, es: seq<Event>): set<nat>
    requires Legal(q, es)
    decreases |es|
  {
    if es == [] then {} else DroppedBy(q, es[0]) + Dropped(Next(q, es[0]), es[1..])
  }

  /** The program has nothing that resets an IN_FLIGHT row: over every run, the stranded jobs are those that were, and
      those of every batch that a restart lost and every job whose completion or failure could not be recorded. */
  lemma {:induction false} DroppedJobsAreStranded(q: Queue, es: seq<Event>)
    requires Flight(q) && Legal(q, es)
    ensures Flight(Run(q, es)) && Stranded(Run(q, es)) == Stranded(q) + Dropped(q, es)
    decreases |es|
  {
    if es != [] {
      FlightStep(q, es[0]);
      DroppedJobsAreStranded(Next(q, es[0]), es[1..]);
    }
  }

  /** A stranded job keeps its row as it is, but for its reference to an object that goes away. */
  lemma {:induction false} StrandedKeepsJob(q: Queue, es: seq<Event>, id: nat)
    requires Flight(q) && Legal(q, es) && id in Stranded(q)
    ensures id in Run(q, es).jobs && id in Stranded(Run(q, es))
    ensures Run(q, es).jobs[id].(objectId := q.jobs[id].objectId) == q.jobs[id]
    decreases |es|
  {
    if es != [] {
      FlightStep(q, es[0]);
      if es[0].Finished? { assert InBatch(q, q.batch[0].id); }
      StrandedKeepsJob(Next(q, es[0]), es[1..], id);
    }
  }
}
