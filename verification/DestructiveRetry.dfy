/** One run of two nodes in which a retry destroys what the first delivery brought: node "a" stores an object, its
    delivery to "b" is handled but not acknowledged, and the retry, cut short by a read error, takes the blob from "b"
    again and leaves the row. */
module DestructiveRetry {
  import opened Basics
  import opened Hashing
  import opened Outbox
  import opened Text
  import opened Store
  import opened Operations
  import opened ClusterSteps

  const BUCKETS: map<nat, Bucket> := map[0 := Bucket("storage", true, map[], Md5)]

  const BYTES: Bytes := [1, 2]

  const ROW: Row := Row(0, "k", "f", "bin", 2, Md5, Digest(Md5, BYTES), 0, 0, None)

  const JOB: Job := Job("b", Some(0), "f", Digest(Md5, BYTES), Put, Pending, 0, 0)

  const CLAIMED: Claimed := Claimed(0, "b", "f", Digest(Md5, BYTES), Put, Some(Meta("k", "f", "bin", 2, Md5, Digest(Md5, BYTES), 0, 0, "storage")))

  /** The sender once it has stored the object. */
  function Sender(job: Job, batch: seq<Claimed>): Node {
    Node(map[0 := ROW], 1, BUCKETS, 1, [Peer("b", true)], Queue(map[0 := job], 1, batch), map["f" := BYTES])
  }

  const SENDER: Node := Node(map[], 0, BUCKETS, 1, [Peer("b", true)], EMPTY, map[])

  const EMPTY_RECEIVER: Node := Node(map[], 0, BUCKETS, 1, [], EMPTY, map[])

  /** The receiver with the object's row, and with these blobs. */
  function Receiver(blobs: map<string, Bytes>): Node {
    Node(map[0 := ROW], 1, BUCKETS, 1, [], EMPTY, blobs)
  }

  function Pair(a: Node, b: Node): map<string, Node> {
    map["a" := a, "b" := b]
  }

  const REQUEST: PutRequest := PutRequest(0, "k", None, [BYTES], "f", "bin")

  // ----- The steps, node by node -----

  lemma OneChunk(bytes: Bytes)
    ensures Flatten([bytes]) == bytes
  {
    assert [bytes][1..] == [];
  }

  lemma Uploads()
    ensures PutObject(SENDER, "a", REQUEST, NoFault, 0).0 == Sender(JOB, [])
  {
    OneChunk(BYTES);
    assert Receivers([Peer("b", true)], BUCKETS[0], "a") == ["b"] by {
      assert [Peer("b", true)][1..] == [] && "b"[0] != "a"[0];
    }
    var t := Ticket("b", 0, "f", Digest(Md5, BYTES), Put);
    assert Tickets(["b"], 0, "f", Digest(Md5, BYTES), Put) == [t];
    assert [t][1..] == [];
    assert PushAll(EMPTY, [t], 0) == Queue(map[0 := JOB], 1, []);
    assert RecycleActive(map[], 0, "k", 0) == map[];
  }

  lemma ClaimsTheJob(job: Job, now: int)
    requires job.(status := Pending, attempts := 0, nextRetry := 0) == JOB && job.status != InFlight && job.nextRetry <= now
    ensures ClaimJobs(Sender(job, []), now) == Sender(job.(status := InFlight), [CLAIMED])
  {
    var n := Sender(job, []);
    assert ActivePeers(n) == {"b"} by { assert n.peers[0].id in ActivePeers(n); }
    assert EligibleIds(n.queue, now, {"b"}) == {0};
    assert Ascending({0}, 1) == [0];
    assert ClaimIds(n.queue, now, {"b"}) == [0];
    assert [0][1..] == [];
    assert JoinedMeta(n)[0] == CLAIMED.meta.value;
    assert Views([0], n.queue.jobs, JoinedMeta(n)) == [CLAIMED];
    assert MarkInFlight(n.queue.jobs, {0}) == map[0 := job.(status := InFlight)];
    assert (set id | id in [0]) == {0};
  }

  lemma Delivers(now: int)
    ensures Handle(EMPTY_RECEIVER, CLAIMED, [BYTES], now) == (Receiver(map["f" := BYTES]), true)
  {
    OneChunk(BYTES);
    assert TargetName("storage") == "storage" by { TrimFixed("storage"); }
    var written := EMPTY_RECEIVER.(blobs := map["f" := BYTES]);
    assert EnsureBucket(written, "storage") == (written, 0) by { assert BUCKETS[0].name == "storage"; }
    assert InsertIdempotent(written, ROW) == (Receiver(map["f" := BYTES]), true);
    assert EMPTY_RECEIVER.(blobs := EMPTY_RECEIVER.blobs["f" := BYTES]) == written;
    assert MessageFor(CLAIMED, [BYTES], now) == PutMessage("k", "f", "bin", Md5, Digest(Md5, BYTES), 0, 0, "storage", [BYTES]);
  }

  lemma CutShort(now: int)
    ensures Handle(Receiver(map["f" := BYTES]), CLAIMED, [[1]], now) == (Receiver(map[]), false)
  {
    OneChunk([1]);
    assert [1] != BYTES;
    assert map["f" := BYTES] - {"f"} == map[];
  }

  lemma Fails(job: Job, now: int)
    requires job.status == InFlight
    ensures Finish(Queue(map[0 := job], 1, [CLAIMED]), false, now) ==
              Queue(map[0 := job.(status := Failed, attempts := job.attempts + 1, nextRetry := now + 30 * (job.attempts + 1))], 1, [])
  {
    assert [CLAIMED][1..] == [];
  }

  // ----- The run -----

  const START: Cluster := Cluster(Pair(SENDER, EMPTY_RECEIVER), map[])

  const ONCE: Job := JOB.(status := Failed, attempts := 1, nextRetry := 30)

  const TWICE: Job := JOB.(status := Failed, attempts := 2, nextRetry := 90)

  const ORIGIN: map<string, Bytes> := map["f" := BYTES]

  const STORES: Action := Local("a", Upload(REQUEST, NoFault), 0)

  const LOSES_ACK: Action := Sends("a", AckLost, true, [BYTES], 0)

  const RETRIES: Action := Sends("a", ClusterSteps.Acked, true, [[1]], 30)

  const DELIVERY: seq<Action> := [STORES, Claims("a", 0), LOSES_ACK]

  const RETRY: seq<Action> := [Claims("a", 30), RETRIES]

  lemma Stored()
    ensures MayStep(START, STORES) && Step(START, STORES) == Cluster(Pair(Sender(JOB, []), EMPTY_RECEIVER), ORIGIN)
  {
    assert "a"[0] != "b"[0];
    Uploads();
    OneChunk(BYTES);
  }

  lemma ClaimedBy(job: Job, b: Node, now: int)
    requires job.(status := Pending, attempts := 0, nextRetry := 0) == JOB && job.status != InFlight && job.nextRetry <= now
    ensures var c := Cluster(Pair(Sender(job, []), b), ORIGIN);
      MayStep(c, Claims("a", now)) &&
      Step(c, Claims("a", now)) == Cluster(Pair(Sender(job.(status := InFlight), [CLAIMED]), b), ORIGIN)
  {
    assert "a"[0] != "b"[0];
    ClaimsTheJob(job, now);
  }

  lemma Delivered()
    ensures var c := Cluster(Pair(Sender(JOB.(status := InFlight), [CLAIMED]), EMPTY_RECEIVER), ORIGIN);
      MayStep(c, LOSES_ACK) && Step(c, LOSES_ACK) == Cluster(Pair(Sender(ONCE, []), Receiver(map["f" := BYTES])), ORIGIN)
  {
    assert "a"[0] != "b"[0];
    Delivers(0);
    OneChunk(BYTES);
    Fails(JOB.(status := InFlight), 0);
  }

  lemma Retried()
    ensures var c := Cluster(Pair(Sender(ONCE.(status := InFlight), [CLAIMED]), Receiver(map["f" := BYTES])), ORIGIN);
      MayStep(c, RETRIES) && Step(c, RETRIES) == Cluster(Pair(Sender(TWICE, []), Receiver(map[])), ORIGIN)
  {
    assert "a"[0] != "b"[0];
    CutShort(30);
    OneChunk([1]);
    assert [1] <= BYTES;
    Fails(ONCE.(status := InFlight), 30);
  }

  lemma FreshStart()
    ensures Fresh(START)
  {
    TrimFixed("storage");
  }

  lemma FirstPart()
    ensures IsRun(START, DELIVERY) && Exec(START, DELIVERY) == Cluster(Pair(Sender(ONCE, []), Receiver(map["f" := BYTES])), ORIGIN)
  {
    Stored();
    ClaimedBy(JOB, EMPTY_RECEIVER, 0);
    Delivered();
    ExecSnoc(START, [], STORES);
    assert [] + [STORES] == [STORES];
    ExecSnoc(START, [STORES], Claims("a", 0));
    assert [STORES] + [Claims("a", 0)] == [STORES, Claims("a", 0)];
    ExecSnoc(START, [STORES, Claims("a", 0)], LOSES_ACK);
    assert [STORES, Claims("a", 0)] + [LOSES_ACK] == DELIVERY;
  }

  lemma SecondPart()
    ensures var c := Cluster(Pair(Sender(ONCE, []), Receiver(map["f" := BYTES])), ORIGIN);
      IsRun(c, RETRY) && Exec(c, RETRY) == Cluster(Pair(Sender(TWICE, []), Receiver(map[])), ORIGIN)
  {
    var c := Cluster(Pair(Sender(ONCE, []), Receiver(map["f" := BYTES])), ORIGIN);
    ClaimedBy(ONCE, Receiver(map["f" := BYTES]), 30);
    Retried();
    ExecSnoc(c, [], Claims("a", 30));
    assert [] + [Claims("a", 30)] == [Claims("a", 30)];
    ExecSnoc(c, [Claims("a", 30)], RETRIES);
    assert [Claims("a", 30)] + [RETRIES] == RETRY;
  }

  /** After the delivery "b" has the object; after the retry it has the row and no blob. */
  lemma RetryDestroysDeliveredBlob()
    ensures Fresh(START) && IsRun(START, DELIVERY) && IsRun(Exec(START, DELIVERY), RETRY)
    ensures Exec(START, DELIVERY).nodes == Pair(Sender(ONCE, []), Receiver(map["f" := BYTES]))
    ensures Exec(Exec(START, DELIVERY), RETRY).nodes == Pair(Sender(TWICE, []), Receiver(map[]))
  {
    FreshStart();
    FirstPart();
    SecondPart();
  }
}
