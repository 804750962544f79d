/** Re-hashing a bucket in the background, object by object. */
module RehashOperations {
  import opened Basics
  import opened Hashing
  import opened Outbox
  import opened LikePatterns
  import opened Store
  import opened NodeServers

  /** Folder markers are skipped: `.keep` itself, and keys LIKE matches with `%/.keep`. */
  predicate IsFolderMarker(key: string) {
    key == ".keep" || Like("%/.keep", key)
  }

  function RehashIds(objects: map<nat, Row>, bucket: nat): set<nat> {
    set i | i in objects && Active(objects[i]) && objects[i].bucket == bucket && !IsFolderMarker(objects[i].key)
  }

  /** These are the keys whose last segment is ".keep", up to case unless it is the only one. */
  lemma FolderMarkersExactly(key: string)
    ensures IsFolderMarker(key) <==> key == ".keep" || (|key| >= 6 && Fold(key[|key| - 6..]) == "/.keep")
  {
    SuffixMatches("/.keep", key);
    assert "%" + "/.keep" == "%/.keep";
    assert Fold("/.keep") == "/.keep";
  }

  /** What may go wrong with one object: a read of its blob, the update of its row, or the transaction that announces it. */
  datatype RehashFault = NothingFails | ReadFails(at: nat) | UpdateFails | AnnounceFails

  /** One pass of the loop: what goes wrong with the object, and whether the progress counter could be written. */
  datatype Try = Try(fault: RehashFault, counted: bool)

  /** The object is there, its blob can be read to the end, and its row can be written. */
  predicate Updates(n: Node, id: nat, fault: RehashFault) {
    && id in n.objects && Active(n.objects[id]) && n.objects[id].filepath in n.blobs
    && (fault.ReadFails? ==> ReadsThrough(|n.blobs[n.objects[id].filepath]|, Some(fault.at)))
    && !fault.UpdateFails?
  }

  function RehashTried(n: Node, self: string, id: nat, alg: EtagType, fault: RehashFault, now: int): Node {
    if Updates(n, id, fault) then Rehash(n, self, id, alg, !fault.AnnounceFails?, now) else n
  }

  predicate Succeeds(n: Node, id: nat, fault: RehashFault) {
    Updates(n, id, fault) && !fault.AnnounceFails?
  }

  datatype Progress = Progress(node: Node, processed: nat, fatal: bool)

  /** The loop over the listed objects: a failing object is skipped, whether or not that could be counted; a re-hashed
      one that cannot be counted ends the loop. */
  function RehashEach(n: Node, self: string, ids: seq<nat>, tries: seq<Try>, alg: EtagType, now: int): Progress
    requires |ids| == |tries|
    decreases |ids|
  {
    if ids == [] then Progress(n, 0, false)
    else
      var m := RehashTried(n, self, ids[0], alg, tries[0].fault, now);
      if Succeeds(n, ids[0], tries[0].fault) && !tries[0].counted then Progress(m, 0, true)
      else
        var rest := RehashEach(m, self, ids[1..], tries[1..], alg, now);
        rest.(processed := rest.processed + (if tries[0].counted then 1 else 0))
  }

  /** `rehash_one`: read the blob, update the row, announce the new etag. A blob that is gone is an error. */
  method RehashOne(s: NodeServer, id: nat, alg: EtagType, fault: RehashFault, now: int) returns (ok: bool)
    modifies s`objects, s`jobs, s`nextJob
    ensures s.State() == RehashTried(old(s.State()), s.self, id, alg, fault, now)
    ensures ok <==> Succeeds(old(s.State()), id, fault)
  {
    if id !in s.objects { return false; }
    var row := s.objects[id];
    var etag := s.HashFilepath(row.filepath, alg, if fault.ReadFails? then Some(fault.at) else None);
    if etag.None? || !Active(row) || fault.UpdateFails? { return false; }
    s.objects := s.objects[id := row.(etagType := alg, etag := etag.value, modified := now)];
    if fault.AnnounceFails? { return false; }
    s.Enqueue(id, row.filepath, etag.value, Put, now);
    ok := true;
  }

  /** `run_bucket_rehash` over the objects the query listed. */
  method RunBucketRehash(s: NodeServer, listed: seq<nat>, tries: seq<Try>, alg: EtagType, now: int) returns (processed: nat, fatal: bool)
    requires |listed| == |tries|
    modifies s`objects, s`jobs, s`nextJob
    ensures Progress(s.State(), processed, fatal) == RehashEach(old(s.State()), s.self, listed, tries, alg, now)
  {
    processed, fatal := 0, false;
    for i := 0 to |listed|
      invariant !fatal
      invariant var rest := RehashEach(s.State(), s.self, listed[i..], tries[i..], alg, now);
        RehashEach(old(s.State()), s.self, listed, tries, alg, now) == rest.(processed := processed + rest.processed)
    {
      assert listed[i..][1..] == listed[i + 1..] && tries[i..][1..] == tries[i + 1..];
      var ok := RehashOne(s, listed[i], alg, tries[i].fault, now);
      if tries[i].counted {
        processed := processed + 1;
      } else if ok {
        fatal := true;
        break;
      }
    }
  }

  /** A row after a re-hash: the new digest of the bytes it has, everything else as it was. */
  function Rehashed(r: Row, alg: EtagType, blobs: map<string, Bytes>, now: int): Row {
    if r.filepath in blobs then r.(etagType := alg, etag := Digest(alg, blobs[r.filepath]), modified := now) else r
  }

  ghost predicate RehashedRows(n: Node, m: Node, ids: set<nat>, alg: EtagType, now: int) {
    && m.objects.Keys == n.objects.Keys && m.blobs == n.blobs && m.nextObject == n.nextObject && m.buckets == n.buckets
    && m.nextBucket == n.nextBucket && m.peers == n.peers
    && (forall i :: i in n.objects ==>
          m.objects[i] == if i in ids && Active(n.objects[i]) then Rehashed(n.objects[i], alg, n.blobs, now) else n.objects[i])
  }

  /** The listed objects whose rows the loop rewrites: those it reaches and can update. */
  function Rewritten(n: Node, ids: seq<nat>, tries: seq<Try>): set<nat>
    requires |ids| == |tries|
    decreases |ids|
  {
    if ids == [] then {}
    else
      (if Updates(n, ids[0], tries[0].fault) then {ids[0]} else {}) +
      (if Succeeds(n, ids[0], tries[0].fault) && !tries[0].counted then {} else Rewritten(n, ids[1..], tries[1..]))
  }

  lemma RehashNext(n: Node, m: Node, self: string, done: set<nat>, id: nat, alg: EtagType, fault: RehashFault, now: int)
    requires RehashedRows(n, m, done, alg, now)
    ensures Updates(m, id, fault) == Updates(n, id, fault)
    ensures RehashedRows(n, RehashTried(m, self, id, alg, fault, now), done + (if Updates(n, id, fault) then {id} else {}), alg, now)
  {
  }

  lemma {:induction false} RehashEachRows(n: Node, m: Node, self: string, done: set<nat>, ids: seq<nat>, tries: seq<Try>, alg: EtagType, now: int)
    requires |ids| == |tries| && RehashedRows(n, m, done, alg, now)
    ensures RehashedRows(n, RehashEach(m, self, ids, tries, alg, now).node, done + Rewritten(n, ids, tries), alg, now)
    decreases |ids|
  {
    if ids == [] {
      assert done + {} == done;
    } else {
      var head := if Updates(n, ids[0], tries[0].fault) then {ids[0]} else {};
      RehashNext(n, m, self, done, ids[0], alg, tries[0].fault, now);
      if Succeeds(n, ids[0], tries[0].fault) && !tries[0].counted {
        assert done + Rewritten(n, ids, tries) == done + head;
      } else {
        RehashEachRows(n, RehashTried(m, self, ids[0], alg, tries[0].fault, now), self, done + head, ids[1..], tries[1..], alg, now);
        assert done + head + Rewritten(n, ids[1..], tries[1..]) == done + Rewritten(n, ids, tries);
      }
    }
  }

  lemma {:induction false} RewrittenIs(n: Node, ids: seq<nat>, tries: seq<Try>)
    requires |ids| == |tries|
    ensures forall i :: i in Rewritten(n, ids, tries) ==> i in ids && i in n.objects && Active(n.objects[i]) && n.objects[i].filepath in n.blobs
    decreases |ids|
  {
    if ids != [] { RewrittenIs(n, ids[1..], tries[1..]); }
  }

  /** The object is active, its blob can be read to the end, and its row can be written. */
  ghost predicate Writable(n: Node, id: nat, fault: RehashFault) {
    && id in n.objects && n.objects[id].deletedAt == None && n.objects[id].filepath in n.blobs
    && fault != UpdateFails
    && (fault.ReadFails? ==> |n.blobs[n.objects[id].filepath]| + 65536 <= fault.at * 65536)
  }

  /** The loop ends after an object that was rewritten and announced but not counted. */
  ghost predicate Ends(n: Node, id: nat, t: Try) {
    Writable(n, id, t.fault) && t.fault != AnnounceFails && !t.counted
  }

  /** The object is in the list, can be rewritten, and the loop has not ended before. */
  ghost predicate IsReached(n: Node, ids: seq<nat>, tries: seq<Try>, i: nat)
    requires |ids| == |tries|
  {
    exists k :: 0 <= k < |ids| && ids[k] == i && Writable(n, i, tries[k].fault) && forall j :: 0 <= j < k ==> !Ends(n, ids[j], tries[j])
  }

  /** The rows the loop rewrites are those. */
  lemma {:induction false} RewrittenExactly(n: Node, ids: seq<nat>, tries: seq<Try>, i: nat)
    requires |ids| == |tries|
    ensures i in Rewritten(n, ids, tries) <==> IsReached(n, ids, tries, i)
    decreases |ids|
  {
    if ids != [] {
      RewrittenExactly(n, ids[1..], tries[1..], i);
      if k :| 0 <= k < |ids| && ids[k] == i && Writable(n, i, tries[k].fault) && forall j :: 0 <= j < k ==> !Ends(n, ids[j], tries[j]) {
        assert k > 0 ==> ids[1..][k - 1] == i && forall j :: 0 <= j < k - 1 ==> !Ends(n, ids[1..][j], tries[1..][j]);
      }
      if !Ends(n, ids[0], tries[0]) && IsReached(n, ids[1..], tries[1..], i) {
        var k :| 0 <= k < |ids[1..]| && ids[1..][k] == i && Writable(n, i, tries[1..][k].fault) && forall j :: 0 <= j < k ==> !Ends(n, ids[1..][j], tries[1..][j]);
        assert forall j :: 0 <= j < k + 1 ==> !Ends(n, ids[j], tries[j]) by {
          assert forall j :: 1 <= j < k + 1 ==> ids[j] == ids[1..][j - 1] && tries[j] == tries[1..][j - 1];
        }
        assert ids[k + 1] == i;
      }
    }
  }

  /** How many of the tries could be counted. */
  function CountedTries(tries: seq<Try>): nat {
    if tries == [] then 0 else (if tries[0].counted then 1 else 0) + CountedTries(tries[1..])
  }

  /** The loop ends here, or at the end of the list, and not before. */
  ghost predicate EndsAt(n: Node, ids: seq<nat>, tries: seq<Try>, end: nat)
    requires |ids| == |tries|
  {
    end <= |ids| && (forall j :: 0 <= j < end ==> !Ends(n, ids[j], tries[j])) && (end < |ids| ==> Ends(n, ids[end], tries[end]))
  }

  lemma EndsLater(n: Node, ids: seq<nat>, tries: seq<Try>, end: nat)
    requires ids != [] && |ids| == |tries| && !Ends(n, ids[0], tries[0]) && EndsAt(n, ids[1..], tries[1..], end)
    ensures EndsAt(n, ids, tries, end + 1)
    ensures CountedTries(tries[..end + 1]) == (if tries[0].counted then 1 else 0) + CountedTries(tries[1..][..end])
  {
    assert forall j :: 1 <= j < |ids| ==> ids[j] == ids[1..][j - 1] && tries[j] == tries[1..][j - 1];
    assert tries[..end + 1][1..] == tries[1..][..end];
  }

  lemma WhenItEnds(n: Node, m: Node, done: set<nat>, id: nat, t: Try, alg: EtagType, now: int)
    requires RehashedRows(n, m, done, alg, now)
    ensures Succeeds(m, id, t.fault) && !t.counted <==> Ends(n, id, t)
  {
  }

  /** Where the loop ends, and how far its counter got by then. */
  lemma {:induction false} RehashProgress(n: Node, m: Node, self: string, done: set<nat>, ids: seq<nat>, tries: seq<Try>, alg: EtagType, now: int)
    returns (end: nat)
    requires |ids| == |tries| && RehashedRows(n, m, done, alg, now)
    ensures EndsAt(n, ids, tries, end)
    ensures var p := RehashEach(m, self, ids, tries, alg, now);
      (p.fatal <==> end < |ids|) && p.processed == CountedTries(tries[..end])
    decreases |ids|
  {
    end := 0;
    if ids != [] {
      var head := if Updates(n, ids[0], tries[0].fault) then {ids[0]} else {};
      var next := RehashTried(m, self, ids[0], alg, tries[0].fault, now);
      WhenItEnds(n, m, done, ids[0], tries[0], alg, now);
      RehashNext(n, m, self, done, ids[0], alg, tries[0].fault, now);
      if !Ends(n, ids[0], tries[0]) {
        var rest := RehashProgress(n, next, self, done + head, ids[1..], tries[1..], alg, now);
        EndsLater(n, ids, tries, rest);
        end := rest + 1;
      }
    }
  }

  predicate Flawless(tries: seq<Try>) {
    forall k :: 0 <= k < |tries| ==> tries[k] == Try(NothingFails, true)
  }

  lemma {:induction false} AllRewritten(n: Node, ids: seq<nat>, tries: seq<Try>, i: nat)
    requires |ids| == |tries| && Flawless(tries)
    requires i in ids && i in n.objects && Active(n.objects[i]) && n.objects[i].filepath in n.blobs
    ensures i in Rewritten(n, ids, tries)
    decreases |ids|
  {
    if ids[0] != i {
      assert i in ids[1..];
      AllRewritten(n, ids[1..], tries[1..], i);
    }
  }

  /** An active object of the bucket that is no folder marker. */
  ghost predicate IsListed(n: Node, bucket: nat, i: nat) {
    && i in n.objects && n.objects[i].deletedAt == None && n.objects[i].bucket == bucket
    && n.objects[i].key != ".keep" && !(|n.objects[i].key| >= 6 && Fold(n.objects[i].key[|n.objects[i].key| - 6..]) == "/.keep")
  }

  /** A bucket re-hash, in whatever order the query listed the objects and whatever fails on the way, gives the new
      algorithm and the digest of its blob to exactly the rows the loop reached and could write, and touches no other row,
      no blob and no key. When nothing fails these are all active objects of the bucket that are no folder markers and
      have a blob. */
  lemma BucketRehashExact(n: Node, self: string, bucket: nat, listed: seq<nat>, tries: seq<Try>, alg: EtagType, now: int)
    requires |listed| == |tries| && forall i :: i in listed <==> i in RehashIds(n.objects, bucket)
    ensures forall i :: i in listed <==> IsListed(n, bucket, i)
    ensures var m := RehashEach(n, self, listed, tries, alg, now).node;
      && m == n.(objects := m.objects, queue := m.queue) && m.objects.Keys == n.objects.Keys
      && (forall i :: i in n.objects ==>
            var r := n.objects[i];
            m.objects[i] == if IsReached(n, listed, tries, i) && r.filepath in n.blobs
                            then r.(etagType := alg, etag := Digest(alg, n.blobs[r.filepath]), modified := now) else r)
    ensures Flawless(tries) ==>
              forall i :: IsReached(n, listed, tries, i) <==> IsListed(n, bucket, i) && n.objects[i].filepath in n.blobs
  {
    RehashEachRows(n, n, self, {}, listed, tries, alg, now);
    RewrittenIs(n, listed, tries);
    assert {} + Rewritten(n, listed, tries) == Rewritten(n, listed, tries);
    forall i ensures i in listed <==> IsListed(n, bucket, i) {
      if i in n.objects { FolderMarkersExactly(n.objects[i].key); }
    }
    forall i ensures i in Rewritten(n, listed, tries) <==> IsReached(n, listed, tries, i) {
      RewrittenExactly(n, listed, tries, i);
    }
    if Flawless(tries) {
      forall i | i in listed && n.objects[i].filepath in n.blobs ensures i in Rewritten(n, listed, tries) {
        AllRewritten(n, listed, tries, i);
      }
    }
  }
}
