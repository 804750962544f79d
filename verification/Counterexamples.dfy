/** One small input for every property the program does not have: the failing side of each exact condition is reached. */
module Counterexamples {
  import opened Basics
  import opened Hashing
  import opened Outbox
  import opened OutboxAudit
  import opened LikePatterns
  import opened Text
  import opened Store
  import opened Rename
  import opened Operations
  import opened ClusterSteps
  import opened ClusterDelivery
  import opened AntiEntropy
  import opened AntiEntropyDrain
  import opened AntiEntropyLaws
  import opened AntiEntropyProgress
  import opened Reconcile
  import opened ReconcileLaws
  import opened ClusterQuota
  import opened Listing
  import opened ListingLaws
  import opened Paging

  const BUCKETS: map<nat, Bucket> := map[0 := Bucket("storage", true, map[], Md5)]

  function Item(key: string, filepath: string, bytes: Bytes): Row {
    Row(0, key, filepath, "bin", |bytes|, Md5, Digest(Md5, bytes), 0, 0, None)
  }

  function Holding(objects: map<nat, Row>, next: nat, blobs: map<string, Bytes>): Node {
    Node(objects, next, BUCKETS, 1, [], EMPTY, blobs)
  }

  // ----- Uploads and quotas -----

  /** An overwrite whose insert fails leaves the key without an object. */
  lemma FailedOverwriteHidesKey()
    ensures var n := Holding(map[0 := Item("k", "f", [1])], 1, map["f" := [1]]);
      var (m, outcome) := PutObject(n, "a", PutRequest(0, "k", None, [[2]], "g", "bin"), InsertFault, 9);
      Sound(n) && outcome == Aborted && FindActive(n.objects, 0, "k") == Some(0) && FindActive(m.objects, 0, "k") == None
  {
    var n := Holding(map[0 := Item("k", "f", [1])], 1, map["f" := [1]]);
    assert Trim("storage") == "storage" by { TrimFixed("storage"); }
    assert Serves(n.objects[0], 0, "k");
    assert RecycleActive(n.objects, 0, "k", 9) == Recycle(n.objects, 0, 9);
  }

  /** A bucket with a hard allocation of one byte on peer "b". */
  function Tight(objects: map<nat, Row>, next: nat): Node {
    Node(objects, next, map[0 := Bucket("storage", true, map["b" := Allocation(1, true)], Md5)], 1, [], EMPTY, map[])
  }

  /** A restore passes a hard limit that an upload of the same bytes would be refused by. */
  lemma RestorePassesHardLimit()
    ensures var n := Tight(map[0 := Item("k", "f", [1, 2]).(deletedAt := Some(0))], 1);
      && Sound(n) && HardLimit(n, 0, 1) && UsedBytes(n, 0) == 0
      && Restore(n, 0, 9).1 == Restored && UsedBytes(Restore(n, 0, 9).0, 0) == 2
      && !QuotaAllows(n, 0, 2)
  {
    var n := Tight(map[0 := Item("k", "f", [1, 2]).(deletedAt := Some(0))], 1);
    assert Trim("storage") == "storage" by { TrimFixed("storage"); }
    assert n.buckets[0].nodes["b"] == Allocation(1, true);
    assert UsedBytes(n, 0) == UsedBelow(n.objects, 0, 0) + 0;
    RestoreUsage(n, 0, 9, 0);
  }

  /** A received replica passes it as well. */
  lemma ReplicaPassesHardLimit()
    ensures var n := Tight(map[], 0);
      var m := PutMessage("k", "f", "bin", Md5, Digest(Md5, [1, 2]), 0, 0, "storage", [[1, 2]]);
      && Sound(n) && HardLimit(n, 0, 1) && UsedBytes(n, 0) == 0
      && ReceivePut(n, m).1 && UsedBytes(ReceivePut(n, m).0, 0) == 2
  {
    var n := Tight(map[], 0);
    var m := PutMessage("k", "f", "bin", Md5, Digest(Md5, [1, 2]), 0, 0, "storage", [[1, 2]]);
    assert Trim("storage") == "storage" by { TrimFixed("storage"); }
    assert n.buckets[0].nodes["b"] == Allocation(1, true);
    assert [[1, 2]][1..] == [] && Flatten(m.chunks) == [1, 2];
    assert AddsTo(n, m, 0);
    ReceivedUsage(n, m, 0);
  }

  // ----- Folders -----

  lemma OtherCase()
    ensures FoldedPrefix("d/", "D/x") && !("d/" <= "D/x")
  {
    assert "D/x"[..2] == "D/" && "D/x"[0] != "d/"[0];
    assert Fold("d/") == Fold("D/");
  }

  /** Deleting the folder "d/" takes the key "D/x" with it. */
  lemma DeleteTakesOtherCase()
    ensures var n := Holding(map[0 := Item("D/x", "f", [1])], 1, map[]);
      ActiveKeys(SoftDeletePrefix(n, 0, "d/", 9).objects, 0) == {} && ActiveKeys(n.objects, 0) == {"D/x"}
  {
    var n := Holding(map[0 := Item("D/x", "f", [1])], 1, map[]);
    OtherCase();
    assert n.objects[0].key in ActiveKeys(n.objects, 0);
    SoftDeletePrefixReach(n, 0, "d/", 9);
  }

  /** Renaming the folder "d/", which is called "D/", reports success and moves nothing. */
  lemma RenameOfOtherCaseMovesNothing()
    ensures var n := Holding(map[0 := Item("D/x", "f", [1])], 1, map[]);
      RenamePrefix(n, 0, "d/", "e/", 9) == (n, Renamed(0))
  {
    var n := Holding(map[0 := Item("D/x", "f", [1])], 1, map[]);
    OtherCase();
    assert "d/" != "e/" by { assert "d/"[0] != "e/"[0]; }
    assert ActiveKeys(n.objects, 0) == {"D/x"} by { assert n.objects[0].key in ActiveKeys(n.objects, 0); }
    RenameMovesNothingExactly(n, 0, "d/", "e/", 9);
  }

  lemma Letters()
    ensures !("a/" <= "b/y") && "a/" != "b/" && "a/" <= "a/x" && "b/" <= "b/x" && "b/" <= "b/y"
    ensures Rebase("a/x", "a/", "b/") == "b/x" && Rebase("b/x", "b/", "a/") == "a/x" && Rebase("b/y", "b/", "a/") == "a/y"
    ensures "b/x" != "a/x" && "b/x" != "b/y" && "a/x" != "b/y" && "a/y" != "b/x" && "a/y" != "b/y"
  {
    assert "a/"[0] != "b/"[0] && "b/y"[0] != "a/"[0] && "b/x"[2] != "b/y"[2] && "a/x"[0] != "b/x"[0];
    assert "a/x"[2..] == "x" && "b/x"[2..] == "x" && "b/y"[2..] == "y";
    assert "b/" + "x" == "b/x" && "a/" + "x" == "a/x" && "a/" + "y" == "a/y";
    assert "a/x"[..2] == "a/" && "b/x"[..2] == "b/" && "b/y"[..2] == "b/";
    assert "a/y"[0] != "b/x"[0] && "a/y"[0] != "b/y"[0] && "a/x"[0] != "b/y"[0];
  }

  /** A rename that finds rows and no target in use rewrites them. */
  lemma RenameGoesThrough(n: Node, from: string, to: string, now: int)
    requires from != to && RenameRows(n.objects, 0, from) != {} && !RenameBlocked(n.objects, 0, from, to)
    ensures RenamePrefix(n, 0, from, to, now).1 == Renamed(|RenameRows(n.objects, 0, from)|)
    ensures RenamePrefix(n, 0, from, to, now).0.objects == RenameSome(n.objects, RenameRows(n.objects, 0, from), from, to, now)
  {
    var i :| i in RenameRows(n.objects, 0, from);
    assert i in LikeRows(n.objects, 0, from);
  }

  const THERE: map<nat, Row> := map[0 := Item("a/x", "f", [1]), 1 := Item("b/y", "g", [1])]

  const MOVED: map<nat, Row> := map[0 := Item("b/x", "f", [1]).(modified := 8), 1 := Item("b/y", "g", [1])]

  lemma RewritesOne()
    ensures "a/" <= THERE[0].key && RenameSome(THERE, {0}, "a/", "b/", 8) == MOVED
  {
    Letters();
  }

  lemma FirstMovesFreely()
    ensures RenameRows(THERE, 0, "a/") == {0} && !RenameBlocked(THERE, 0, "a/", "b/") && "a/" != "b/"
  {
    Letters();
    RenameRowsExact(THERE, 0, "a/");
  }

  lemma MovesThere()
    ensures RenamePrefix(Holding(THERE, 2, map[]), 0, "a/", "b/", 8) == (Holding(MOVED, 2, map[]), Renamed(1))
  {
    RewritesOne();
    FirstMovesFreely();
    RenameGoesThrough(Holding(THERE, 2, map[]), "a/", "b/", 8);
  }

  lemma MovesBack()
    ensures var (k, back) := RenamePrefix(Holding(MOVED, 2, map[]), 0, "b/", "a/", 9);
      back.Renamed? && 1 in k.objects && k.objects[1].key == "a/y"
  {
    Letters();
    RenameRowsExact(MOVED, 0, "b/");
    assert RenameRows(MOVED, 0, "b/") == {0, 1};
    RenameGoesThrough(Holding(MOVED, 2, map[]), "b/", "a/", 9);
  }

  lemma ThereIsSound()
    ensures Sound(Holding(THERE, 2, map[]))
  {
    assert "a/x"[0] != "b/y"[0] && "f"[0] != "g"[0];
    assert Trim("storage") == "storage" by { TrimFixed("storage"); }
  }

  /** Renaming "a/" to "b/" and back moves the object that was under "b/" before. */
  lemma RenameBackMovesStranger()
    ensures var n := Holding(THERE, 2, map[]);
      var (m, outcome) := RenamePrefix(n, 0, "a/", "b/", 8);
      var (k, back) := RenamePrefix(m, 0, "b/", "a/", 9);
      Sound(n) && outcome == Renamed(1) && back.Renamed? && 1 in k.objects && k.objects[1].key == "a/y"
  {
    ThereIsSound();
    MovesThere();
    MovesBack();
  }

  /** A listing of "d/" without a delimiter shows the key "D/x". */
  lemma FlatListingShowsOtherCase()
    ensures var n := Holding(map[0 := Item("D/x", "f", [1])], 1, map[]);
      IsQuery(n.objects, 0, "d/", [n.objects[0]]) && Unmarked([n.objects[0]]) == [n.objects[0]] && !("d/" <= "D/x")
  {
    var n := Holding(map[0 := Item("D/x", "f", [1])], 1, map[]);
    OtherCase();
    LikeRowsMean(n.objects, 0, "d/");
    assert LikeRows(n.objects, 0, "d/") == {0};
    assert !IsMarker("D/x") by { assert "D/x"[..2] == "D/" && |Base("D/x")| <= 3; }
    assert [n.objects[0]] == [] + [n.objects[0]];
  }

  // ----- Replication -----

  /** A late PUT of an empty object, whose sender has deleted it, brings it back. */
  lemma LatePutRecreatesEmptyObject()
    ensures var n := Holding(map[], 0, map[]);
      Absent(n, "f") &&
      PathTaken(ReceivePut(n, PutMessage("k", "f", "bin", Md5, Digest(Md5, []), 0, 0, "storage", [])).0.objects, "f")
  {
    var n := Holding(map[], 0, map[]);
    assert Trim("storage") == "storage" by { TrimFixed("storage"); }
    assert Sound(n);
    StalePutRecreatesExactly(n, PutMessage("k", "f", "bin", Md5, Digest(Md5, []), 0, 0, "storage", []));
  }

  lemma OneItemIsTrue(key: string, fp: string, bytes: Bytes, peers: seq<Peer>, origin: map<string, Bytes>)
    requires fp in origin && origin[fp] == bytes
    ensures var n := Holding(map[0 := Item(key, fp, bytes)], 1, map[fp := bytes]).(peers := peers);
      Sound(n) && NodeTrue(n, origin)
  {
    assert Trim("storage") == "storage" by { TrimFixed("storage"); }
  }

  lemma OneItemDigest(key: string, fp: string, bytes: Bytes)
    ensures DigestMap(map[0 := Item(key, fp, bytes)]) == map[fp := Digest(Md5, bytes)]
    ensures ActivePaths(map[0 := Item(key, fp, bytes)]) == {fp}
  {
    var rows := map[0 := Item(key, fp, bytes)];
    assert UniquePaths(rows);
    DigestMapReads(rows, 0);
    assert ActivePaths(rows) == {fp} by { assert rows[0].filepath == fp; }
  }

  const LEFT: Node := Holding(map[0 := Item("k", "f", [1])], 1, map["f" := [1]]).(peers := [Peer("b", true)])

  const RIGHT: Node := Holding(map[0 := Item("k", "g", [2])], 1, map["g" := [2]]).(peers := [])

  /** Two nodes that took an upload of one key each. */
  const SPLIT: Cluster := Cluster(map["a" := LEFT, "b" := RIGHT], map["f" := [1], "g" := [2]])

  const PASS: Pass := Pass(LEFT, "a", map["b" := map["g" := Digest(Md5, [2])]], 0)

  lemma SplitIsInv()
    ensures Inv(SPLIT)
  {
    assert SPLIT.origin["f"] == [1] && SPLIT.origin["g"] == [2] by { assert "f"[0] != "g"[0]; }
    OneItemIsTrue("k", "f", [1], [Peer("b", true)], SPLIT.origin);
    OneItemIsTrue("k", "g", [2], [], SPLIT.origin);
    forall a | a in SPLIT.nodes ensures SPLIT.nodes[a] == LEFT || SPLIT.nodes[a] == RIGHT {}
  }

  lemma SplitBegins()
    ensures Begins(PASS, SPLIT)
  {
    assert "a"[0] != "b"[0];
    SplitIsInv();
    OneItemDigest("k", "g", [2]);
  }

  lemma RivalInTheWay()
    ensures Undeliverable(PASS, SPLIT, "b", 0)
  {
    assert "a"[0] != "b"[0] && "f"[0] != "g"[0];
    assert PASS.sender.peers[0] == Peer("b", true);
    assert RIGHT.objects[0].key == "k" && RIGHT.buckets[0].name == "storage";
  }

  /** After a pass at "a" no run of its worker ever empties its outbox: "b" uses the key for its own object. */
  lemma RivalIsNeverDrained()
    ensures Begins(PASS, SPLIT) && !AllDeliverable(PASS, SPLIT)
    ensures forall run :: !Empties(PASS, AfterPass(PASS, SPLIT, ["f"]), run)
  {
    SplitBegins();
    RivalInTheWay();
    OneItemDigest("k", "f", [1]);
    DrainableExactly(PASS, SPLIT, ["f"]);
  }

  /** "b" has lost the blob "f" but not its row: a pass at "a", which still has the blob, enqueues nothing. */
  lemma AgreeingRowHidesLostBlob()
    ensures LEFT.objects[0].filepath == "f" && "f" in LEFT.blobs
    ensures var b := Holding(LEFT.objects, 1, map[]); RunOnce(LEFT, "a", map["b" := DigestMap(b.objects)], ["f"], 0) == LEFT
  {
    OneItemDigest("k", "f", [1]);
    var remote := DigestMap(LEFT.objects);
    assert ["f"][1..] == [] && [Peer("b", true)][1..] == [];
    assert RepairPath(LEFT, "b", remote, "f", 0) == LEFT;
    assert RepairPaths(LEFT, "b", remote, ["f"], 0) == LEFT;
  }

  /** A replayed PUT whose bucket is called otherwise on the receiver by now creates that bucket again. */
  lemma ReplayRecreatesBucket()
    ensures var n := Holding(map[0 := Item("k", "f", [1])], 1, map["f" := [1]]);
      var m := PutMessage("k", "f", "bin", Md5, Digest(Md5, [1]), 0, 0, "old", [[1]]);
      ReceivePut(n, m).1 && ReceivePut(n, m).0.objects == n.objects && 1 in ReceivePut(n, m).0.buckets && 1 !in n.buckets
  {
    assert [[1]][1..] == [] && Flatten([[1]]) == [1];
    assert "old" != "storage" && TargetName("old") == "old" by { TrimFixed("old"); }
    var n := Holding(map[0 := Item("k", "f", [1])], 1, map["f" := [1]]);
    assert n.objects[0].filepath == "f";
    assert n.blobs["f" := [1]] == n.blobs;
  }

  const TICKET: Ticket := Ticket("b", 0, "f", Digest(Md5, []), Put)

  const CLAIMED: Claimed := Claimed(0, "b", "f", Digest(Md5, []), Put, None)

  lemma OneIsClaimed()
    ensures Claim(Push(EMPTY, TICKET, 0), 0, {"b"}, map[]) == Queue(map[0 := FreshJob(TICKET, 0).(status := InFlight)], 1, [CLAIMED])
  {
    var q := Push(EMPTY, TICKET, 0);
    assert EligibleIds(q, 0, {"b"}) == {0};
    assert Ascending({0}, 1) == [0] && [0][1..] == [] && (set id | id in [0]) == {0};
    assert Views([0], q.jobs, map[]) == [CLAIMED];
  }

  /** One job is enqueued and claimed, then the worker is restarted: the job is stranded. */
  lemma RestartStrandsJob()
    ensures var es := [Enqueued(TICKET, 0), Claiming(0, {"b"}, map[]), Restarted];
      Legal(EMPTY, es) && Stranded(Run(EMPTY, es)) == {0}
  {
    var es := [Enqueued(TICKET, 0), Claiming(0, {"b"}, map[]), Restarted];
    var q := Push(EMPTY, TICKET, 0);
    var claimed := Claim(q, 0, {"b"}, map[]);
    OneIsClaimed();
    assert es[1..] == [es[1], es[2]] && es[1..][1..] == [es[2]] && [es[2]][1..] == [];
    assert Run(claimed, [es[2]]) == claimed.(batch := []);
    assert Run(q, es[1..]) == claimed.(batch := []);
    assert Run(EMPTY, es) == claimed.(batch := []);
  }

  // ----- Paths -----

  /** The reconciler looks for "./x" and " x" in another place than the engine. */
  lemma NormalizeMisses()
    ensures Resolve(Normalize("./x")) != Resolve(EnginePath("./x"))
    ensures Resolve(Normalize(" x")) != Resolve(EnginePath(" x"))
  {
    TrimFixed("./x");
    assert StripDots("./x") == "x" by { assert "./x"[2..] == "x"; }
    assert !WellFormed("./x");
    NormalizeResolvesExactly("./x");
    TrimFixed(" x");
    assert !WellFormed(" x");
    NormalizeResolvesExactly(" x");
  }

  /** The engine opens the file "x" for the row "objects//x", whose path is trimmed and normalises to itself; a repair
      removes it. */
  lemma RepairRemovesOpenedFile()
    ensures Opens("objects//x", "x") && WellFormed("objects//x") && Normalize("objects//x") == "objects//x"
    ensures "x" !in Repaired({"x"}, DbFiles([("objects//x", false)]), {})
  {
    DoubledIsItself();
    DoubledParts();
    DoubledOpens();
    assert Split("objects//x", '/')[1] == "";
    UntidyIsRemoved("objects//x", "x");
  }

  lemma DoubledParts()
    ensures Split("objects//x", '/') == ["objects", "", "x"]
  {
    SplitPlain("objects", '/');
    SplitPlain("x", '/');
    assert "objects//x" == "objects" + ['/'] + "/x";
    SplitJoin("objects", '/', "/x");
    assert "/x" == "" + ['/'] + "x";
    SplitJoin("", '/', "x");
  }

  lemma DoubledSignificant(a: string, b: string)
    requires a != "" && a != "." && b != "" && b != "."
    ensures Significant([a, "", b]) == [a, b]
  {
    assert [a, "", b] == [a] + [""] + [b];
    SignificantAdd([a] + [""], [b]);
    SignificantAdd([a], [""]);
    assert [a][1..] == [] && [""][1..] == [] && [b][1..] == [];
  }

  lemma DoubledOpens()
    ensures Opens("objects//x", "x")
  {
    DoubledParts();
    NameParts("x");
    PlainName("objects");
    DoubledSignificant("objects", "x");
    assert "objects//x"[0] == 'o' && "objects//x"[7] == '/';
    OpensPath("objects//x", "x");
  }

  lemma OpensPath(path: string, name: string)
    requires Visible(name) && '/' in path && path[0] != '/' && Significant(Split(path, '/')) == ["objects", name]
    ensures Opens(path, name)
  {
    NameParts(name);
  }

  lemma UntidyIsRemoved(path: string, name: string)
    requires Visible(name) && Opens(path, name) && !Tidy(path)
    ensures name !in Repaired({name}, DbFiles([(path, false)]), {})
  {
    var rows := [(path, false)];
    assert rows[0].0 == path;
    RepairKeepsOwnFileExactly({name}, rows, {}, 0, name);
  }

  lemma DoubledIsItself()
    ensures Trim("objects//x") == "objects//x" && StripDots("objects//x") == "objects//x" && Normalize("objects//x") == "objects//x"
  {
    TrimFixed("objects//x");
    assert "objects//x"[0] != '.';
  }
}
