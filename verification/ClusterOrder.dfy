/** Order and pace of delivery in a cluster: what a peer handles comes in the order in which it was enqueued, and a
    failing call is repeated ever more slowly. */
module ClusterOrder {
  import opened Outbox
  import opened OutboxAudit
  import opened Store
  import opened Operations
  import opened ClusterSteps
  import opened ClusterSafety
  import opened ClusterOutbox

  // ----- The calls of one node -----

  ghost function CallOf(c: Cluster, a: Action, b: string): seq<Attempt>
    requires MayStep(c, a)
  {
    if a.Sends? && a.at == b then
      var job := c.nodes[b].queue.batch[0];
      [Attempt(job.id, job.peer, Acknowledged(c, a), a.now)]
    else []
  }

  /** The calls node `b` makes over a run, with what it learns of each. */
  ghost function Calls(c: Cluster, run: seq<Action>, b: string): seq<Attempt>
    requires IsRun(c, run)
    decreases |run|
  {
    if run == [] then [] else CallOf(c, run[0], b) + Calls(Step(c, run[0]), run[1..], b)
  }

  lemma {:induction false} WatchAppend(a: Audit, es: seq<Event>, fs: seq<Event>)
    requires Legal(a.q, es) && Legal(Watch(a, es).q, fs)
    ensures Legal(a.q, es + fs) && Watch(a, es + fs) == Watch(Watch(a, es), fs)
    decreases |es|
  {
    if es == [] {
      assert es + fs == fs;
    } else {
      assert (es + fs)[0] == es[0] && (es + fs)[1..] == es[1..] + fs;
      WatchAppend(Observe(a, es[0]), es[1..], fs);
    }
  }

  predicate NoneFinished(es: seq<Event>) {
    forall i :: 0 <= i < |es| ==> !es[i].Finished?
  }

  lemma {:induction false} QuietLog(a: Audit, es: seq<Event>)
    requires Legal(a.q, es) && NoneFinished(es)
    ensures Watch(a, es).log == a.log
    decreases |es|
  {
    if es != [] { QuietLog(Observe(a, es[0]), es[1..]); }
  }

  lemma {:induction false} EnqueueEventsAre(ts: seq<Ticket>, now: int)
    ensures forall i :: 0 <= i < |EnqueueEvents(ts, now)| ==> EnqueueEvents(ts, now)[i].Enqueued? && EnqueueEvents(ts, now)[i].at == now
  {
    if ts != [] { EnqueueEventsAre(ts[1..], now); }
  }

  /** Events of local operations are enqueues at the time of the operation, or lost references. */
  lemma LocalEventsAre(n: Node, self: string, op: LocalOp, now: int)
    ensures var es := LocalEvents(n, self, op, now);
      forall i :: 0 <= i < |es| ==> (es[i].Enqueued? && es[i].at == now) || es[i].Detached?
  {
    forall ts ensures forall i :: 0 <= i < |EnqueueEvents(ts, now)| ==> EnqueueEvents(ts, now)[i].Enqueued? && EnqueueEvents(ts, now)[i].at == now {
      EnqueueEventsAre(ts, now);
    }
  }

  lemma StepLog(c: Cluster, a: Action, b: string, audit: Audit)
    requires MayStep(c, a) && b in c.nodes && audit.q == c.nodes[b].queue
    ensures Legal(audit.q, StepEvents(c, a, b))
    ensures Watch(audit, StepEvents(c, a, b)).log == audit.log + CallOf(c, a, b)
  {
    StepIsQueueRun(c, a, b);
    if a.Sends? && a.at == b {
      SendLog(c, a, b, audit);
    } else {
      if a.Local? && a.at == b { LocalEventsAre(c.nodes[b], b, a.op, a.now); }
      assert audit.log + [] == audit.log;
      QuietLog(audit, StepEvents(c, a, b));
    }
  }

  lemma SendLog(c: Cluster, a: Action, b: string, audit: Audit)
    requires MayStep(c, a) && a.Sends? && a.at == b && audit.q == c.nodes[b].queue
    ensures Legal(audit.q, StepEvents(c, a, b))
    ensures Watch(audit, StepEvents(c, a, b)).log == audit.log + CallOf(c, a, b)
  {
    var job := c.nodes[b].queue.batch[0];
    var handler := HandlerEvents(c, a, b);
    var finish := [Finished(AfterHandler(c, job, a.outcome, a.chunks, a.now).1, a.recorded, a.now)];
    HandlerIsQueueRun(c, a, b);
    HandlerKeepsBatch(c, b, job, a.outcome, a.chunks, a.now);
    WatchIsRun(audit, handler);
    QuietLog(audit, handler);
    assert finish[1..] == [];
    WatchAppend(audit, handler, finish);
  }

  lemma JoinLogs(audit: Audit, es: seq<Event>, fs: seq<Event>, first: seq<Attempt>, rest: seq<Attempt>)
    requires Legal(audit.q, es) && Legal(Watch(audit, es).q, fs)
    requires Watch(audit, es).log == audit.log + first && Watch(Watch(audit, es), fs).log == Watch(audit, es).log + rest
    ensures Legal(audit.q, es + fs) && Watch(audit, es + fs).log == audit.log + (first + rest)
  {
    WatchAppend(audit, es, fs);
    LogsAssociate(audit.log, first, rest);
  }

  lemma LogsAssociate(a: seq<Attempt>, b: seq<Attempt>, c: seq<Attempt>)
    ensures (a + b) + c == a + (b + c)
  {
  }

  lemma AuditFollows(c: Cluster, a: Action, b: string, audit: Audit)
    requires MayStep(c, a) && b in c.nodes && audit.q == c.nodes[b].queue
    ensures b in Step(c, a).nodes && Legal(audit.q, StepEvents(c, a, b))
    ensures Watch(audit, StepEvents(c, a, b)).q == Step(c, a).nodes[b].queue
    ensures Watch(audit, StepEvents(c, a, b)).log == audit.log + CallOf(c, a, b)
  {
    StepIsQueueRun(c, a, b);
    StepLog(c, a, b, audit);
    WatchIsRun(audit, StepEvents(c, a, b));
  }

  /** The outbox audit of a run records exactly the node's calls. */
  lemma {:induction false} AuditRecordsCalls(c: Cluster, run: seq<Action>, b: string, audit: Audit)
    requires IsRun(c, run) && b in c.nodes && audit.q == c.nodes[b].queue
    ensures Legal(audit.q, RunEvents(c, run, b))
    ensures Watch(audit, RunEvents(c, run, b)).log == audit.log + Calls(c, run, b)
    decreases |run|
  {
    if run == [] {
      assert audit.log + [] == audit.log;
    } else {
      AuditFollows(c, run[0], b, audit);
      AuditRecordsCalls(Step(c, run[0]), run[1..], b, Watch(audit, StepEvents(c, run[0], b)));
      JoinLogs(audit, StepEvents(c, run[0], b), RunEvents(Step(c, run[0]), run[1..], b), CallOf(c, run[0], b), Calls(Step(c, run[0]), run[1..], b));
    }
  }

  // ----- Time -----

  /** Steps that read no clock. */
  predicate Timeless(a: Action) {
    a.Sweeps? || a.Configures? || a.Restarts?
  }

  /** The clock of node `b` does not go back. */
  predicate SteadyClock(clock: int, run: seq<Action>, b: string)
    decreases |run|
  {
    run == [] ||
    if run[0].at != b || Timeless(run[0]) then SteadyClock(clock, run[1..], b)
    else clock <= run[0].now && SteadyClock(run[0].now, run[1..], b)
  }

  lemma {:induction false} TimelyEarlier(early: int, late: int, es: seq<Event>)
    requires early <= late && Timely(late, es)
    ensures Timely(early, es)
    decreases |es|
  {
    if es != [] && (es[0].Detached? || es[0].Restarted?) { TimelyEarlier(early, late, es[1..]); }
  }

  lemma {:induction false} TimelyAppend(clock: int, es: seq<Event>, fs: seq<Event>)
    requires Timely(clock, es) && Timely(EndClock(clock, es), fs)
    ensures Timely(clock, es + fs)
    decreases |es|
  {
    if es == [] {
      assert es + fs == fs;
    } else {
      assert (es + fs)[1..] == es[1..] + fs;
      TimelyAppend(Clock(clock, es[0]), es[1..], fs);
    }
  }

  /** Events that all carry one time, not before the clock. */
  lemma {:induction false} OneTime(clock: int, es: seq<Event>, now: int)
    requires clock <= now && forall i :: 0 <= i < |es| ==> es[i].Detached? || es[i].Restarted? || Clock(clock, es[i]) == Clock(now, es[i]) == now
    ensures Timely(clock, es) && EndClock(clock, es) <= now
    decreases |es|
  {
    if es != [] {
      var next := Clock(clock, es[0]);
      assert forall i :: 0 <= i < |es[1..]| ==> es[1..][i] == es[i + 1];
      OneTime(next, es[1..], now);
    }
  }

  lemma StepTimely(c: Cluster, a: Action, b: string, clock: int)
    requires MayStep(c, a) && SteadyClock(clock, [a], b)
    ensures var es := StepEvents(c, a, b); var now := if a.at != b || Timeless(a) then clock else a.now;
      clock <= now && Timely(clock, es) && EndClock(clock, es) <= now
  {
    var now := if a.at != b || Timeless(a) then clock else a.now;
    assert [a][1..] == [];
    if a.Local? && a.at == b { LocalEventsAre(c.nodes[b], b, a.op, a.now); }
    OneTime(clock, StepEvents(c, a, b), now);
  }

  lemma {:induction false} RunTimely(c: Cluster, run: seq<Action>, b: string, clock: int)
    requires IsRun(c, run) && SteadyClock(clock, run, b)
    ensures Timely(clock, RunEvents(c, run, b))
    decreases |run|
  {
    if run != [] {
      var a, d := run[0], Step(c, run[0]);
      var now := if a.at != b || Timeless(a) then clock else a.now;
      assert [a][1..] == [];
      StepTimely(c, a, b, clock);
      RunTimely(d, run[1..], b, now);
      TimelyEarlier(EndClock(clock, StepEvents(c, a, b)), now, RunEvents(d, run[1..], b));
      TimelyAppend(clock, StepEvents(c, a, b), RunEvents(d, run[1..], b));
    }
  }

  // ----- Order -----

  ghost function HandledBy(c: Cluster, a: Action, b: string, p: string): seq<nat>
    requires MayStep(c, a)
  {
    if a.Sends? && a.at == b && !a.outcome.Unreached? && p in c.nodes && c.nodes[b].queue.batch[0].peer == p
    then [c.nodes[b].queue.batch[0].id] else []
  }

  /** The jobs of node `b` that were handled at peer `p`, in the order in which they were. */
  ghost function HandledFrom(c: Cluster, run: seq<Action>, b: string, p: string): seq<nat>
    requires IsRun(c, run)
    decreases |run|
  {
    if run == [] then [] else HandledBy(c, run[0], b, p) + HandledFrom(Step(c, run[0]), run[1..], b, p)
  }

  /** Every call node `b` makes is handled, acknowledged and recorded. */
  ghost predicate NoneFails(c: Cluster, run: seq<Action>, b: string)
    requires IsRun(c, run)
  {
    forall k :: 0 <= k < |Calls(c, run, b)| ==> Calls(c, run, b)[k].ok
  }

  lemma {:induction false} AppliedToAdd(a: seq<Attempt>, b: seq<Attempt>, p: string)
    ensures AppliedTo(a + b, p) == AppliedTo(a, p) + AppliedTo(b, p)
  {
    if b == [] {
      assert a + b == a;
    } else {
      AppliedToAdd(a, b[..|b| - 1], p);
      assert (a + b)[|a + b| - 1] == b[|b| - 1] && (a + b)[..|a + b| - 1] == a + b[..|b| - 1];
    }
  }

  lemma CallHandled(c: Cluster, a: Action, b: string, p: string)
    requires MayStep(c, a) && forall k :: 0 <= k < |CallOf(c, a, b)| ==> CallOf(c, a, b)[k].ok
    ensures HandledBy(c, a, b, p) == AppliedTo(CallOf(c, a, b), p)
  {
    if a.Sends? && a.at == b {
      assert CallOf(c, a, b)[0].ok;
      AckedWasHandled(c, a);
      AppliedOne(CallOf(c, a, b)[0], p);
    }
  }

  lemma AppliedOne(call: Attempt, p: string)
    ensures AppliedTo([call], p) == if call.ok && call.peer == p then [call.id] else []
  {
    assert [call][..0] == [];
  }

  lemma AckedWasHandled(c: Cluster, a: Action)
    requires MayStep(c, a) && a.Sends? && Acknowledged(c, a)
    ensures !a.outcome.Unreached? && c.nodes[a.at].queue.batch[0].peer in c.nodes
  {
  }

  lemma {:induction false} HandledIsApplied(c: Cluster, run: seq<Action>, b: string, p: string)
    requires IsRun(c, run) && NoneFails(c, run, b)
    ensures HandledFrom(c, run, b, p) == AppliedTo(Calls(c, run, b), p)
    decreases |run|
  {
    if run != [] {
      var first, rest := CallOf(c, run[0], b), Calls(Step(c, run[0]), run[1..], b);
      assert Calls(c, run, b) == first + rest;
      AllOkSplits(first, rest);
      CallHandled(c, run[0], b, p);
      HandledIsApplied(Step(c, run[0]), run[1..], b, p);
      AppliedToAdd(first, rest, p);
    }
  }

  lemma AllOkSplits(first: seq<Attempt>, rest: seq<Attempt>)
    requires forall k :: 0 <= k < |first + rest| ==> (first + rest)[k].ok
    ensures (forall k :: 0 <= k < |first| ==> first[k].ok) && (forall k :: 0 <= k < |rest| ==> rest[k].ok)
  {
    assert forall k :: 0 <= k < |first| ==> first[k] == (first + rest)[k];
    assert forall k :: 0 <= k < |rest| ==> rest[k] == (first + rest)[|first| + k];
  }

  predicate NeverRestarts(run: seq<Action>, b: string) {
    forall i :: 0 <= i < |run| ==> run[i] != Restarts(b)
  }

  lemma {:induction false} NoRestartEvents(c: Cluster, run: seq<Action>, b: string)
    requires IsRun(c, run) && NeverRestarts(run, b)
    ensures forall i :: 0 <= i < |RunEvents(c, run, b)| ==> !RunEvents(c, run, b)[i].Restarted?
    decreases |run|
  {
    if run != [] {
      if run[0].Local? && run[0].at == b { LocalEventsAre(c.nodes[b], b, run[0].op, run[0].now); }
      NoRestartEvents(Step(c, run[0]), run[1..], b);
    }
  }

  /** When no call of node `b` fails, it is not restarted and its clock does not go back, every peer handles b's operations in the order in
      which b enqueued them for it: a prefix of them, and all once none is outstanding. */
  lemma PeersHandleInOrder(c: Cluster, run: seq<Action>, b: string, p: string, clock: int)
    requires Fresh(c) && IsRun(c, run) && b in c.nodes && SteadyClock(clock, run, b)
    requires NoneFails(c, run, b) && NeverRestarts(run, b)
    ensures b in Exec(c, run).nodes && Legal(EMPTY, RunEvents(c, run, b))
    ensures var enqueued := EnqueuedFor(Watch(START, RunEvents(c, run, b)).ledger, p); var q := Exec(c, run).nodes[b].queue;
      && HandledFrom(c, run, b, p) <= enqueued
      && ((forall i :: i in q.jobs ==> q.jobs[i].peer != p) ==> HandledFrom(c, run, b, p) == enqueued)
  {
    var es := RunEvents(c, run, b);
    NoJobLostAnywhere(c, run, b);
    AuditRecordsCalls(c, run, b, START);
    assert [] + Calls(c, run, b) == Calls(c, run, b);
    RunTimely(c, run, b, clock);
    NoRestartEvents(c, run, b);
    CallsAreFaultFree(START, es);
    HandledIsApplied(c, run, b, p);
    FaultFreeDeliveryIsFifo(es, clock, p);
  }

  lemma {:induction false} CallsAreFaultFree(a: Audit, es: seq<Event>)
    requires Legal(a.q, es) && forall k :: |a.log| <= k < |Watch(a, es).log| ==> Watch(a, es).log[k].ok
    requires forall i :: 0 <= i < |es| ==> !es[i].Restarted?
    ensures FaultFree(es) && a.log <= Watch(a, es).log
    decreases |es|
  {
    if es != [] {
      LogGrows(Observe(a, es[0]), es[1..]);
      assert Watch(Observe(a, es[0]), es[1..]) == Watch(a, es);
      CallsAreFaultFree(Observe(a, es[0]), es[1..]);
      if es[0].Finished? { assert Watch(a, es).log[|a.log|] == Observe(a, es[0]).log[|a.log|]; }
      assert forall i :: 1 <= i < |es| ==> es[i] == es[1..][i - 1];
    }
  }

  lemma {:induction false} LogGrows(a: Audit, es: seq<Event>)
    requires Legal(a.q, es)
    ensures a.log <= Watch(a, es).log
    decreases |es|
  {
    if es != [] { LogGrows(Observe(a, es[0]), es[1..]); }
  }

  // ----- Pace -----

  /** In every cluster run, whatever fails, node `b` repeats the call of a job for the k-th time no sooner than
      15 * k * (k + 1) seconds after the first, as long as its clock does not go back. */
  lemma CallsSlowDown(c: Cluster, run: seq<Action>, b: string, id: nat, clock: int)
    requires Fresh(c) && IsRun(c, run) && b in c.nodes && SteadyClock(clock, run, b)
    ensures var ts := Tries(Calls(c, run, b), id);
      forall k :: 0 <= k < |ts| ==> ts[k] >= ts[0] + 15 * k * (k + 1)
  {
    NoJobLostAnywhere(c, run, b);
    AuditRecordsCalls(c, run, b, START);
    assert [] + Calls(c, run, b) == Calls(c, run, b);
    RunTimely(c, run, b, clock);
    RetriesBackOff(RunEvents(c, run, b), clock, id);
  }
}
