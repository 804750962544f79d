/** One node: its SQLite tables as maps, its blob directory, and what each operation does to them. */
module Store {
  import opened Basics
  import opened Hashing
  import opened Outbox
  import opened LikePatterns
  import opened Text

  const DEFAULT_BUCKET: string := "storage"

  /** A row of `object`; `deletedAt` is set while the row sits in the recycle bin. */
  datatype Row = Row(bucket: nat, key: string, filepath: string, format: string, size: nat, etagType: EtagType,
                     etag: Etag, uploaded: int, modified: int, deletedAt: Option<int>)

  /** A row of `bucket_replication_peer`. */
  datatype Allocation = Allocation(bytes: int, hard: bool)

  datatype Bucket = Bucket(name: string, replicateToAll: bool, nodes: map<string, Allocation>, etagType: EtagType)

  datatype Peer = Peer(id: string, active: bool)

  datatype Node = Node(objects: map<nat, Row>, nextObject: nat, buckets: map<nat, Bucket>, nextBucket: nat,
                       peers: seq<Peer>, queue: Queue, blobs: map<string, Bytes>)

  predicate Active(r: Row) { r.deletedAt.None? }

  predicate Serves(r: Row, bucket: nat, key: string) {
    Active(r) && r.bucket == bucket && r.key == key
  }

  // ----- What the schema guarantees -----

  /** The partial unique index: at most one active row per (bucket, key). */
  ghost predicate UniqueKeys(objects: map<nat, Row>) {
    forall i, j :: (i in objects && j in objects && Active(objects[i]) && Active(objects[j]) &&
      objects[i].bucket == objects[j].bucket && objects[i].key == objects[j].key) ==> i == j
  }

  /** `filepath TEXT NOT NULL UNIQUE`. */
  ghost predicate UniquePaths(objects: map<nat, Row>) {
    forall i, j :: i in objects && j in objects && objects[i].filepath == objects[j].filepath ==> i == j
  }

  /** Row ids come from the counter, and every row's bucket exists (a foreign key). */
  ghost predicate SoundRows(objects: map<nat, Row>, nextObject: nat, buckets: set<nat>) {
    && UniqueKeys(objects)
    && UniquePaths(objects)
    && (forall i :: i in objects ==> i < nextObject && objects[i].bucket in buckets)
  }

  /** Bucket names are unique, trimmed and not empty. */
  ghost predicate TidyBuckets(buckets: map<nat, Bucket>, nextBucket: nat) {
    && (forall b :: b in buckets ==> b < nextBucket && buckets[b].name != "" && Trim(buckets[b].name) == buckets[b].name)
    && (forall a, b :: a in buckets && b in buckets && buckets[a].name == buckets[b].name ==> a == b)
  }

  ghost predicate Sound(n: Node) {
    SoundRows(n.objects, n.nextObject, n.buckets.Keys) && TidyBuckets(n.buckets, n.nextBucket)
  }

  // ----- Lookups -----

  /** `SELECT ... WHERE bucket_id = ? AND original_filename = ? AND deleted_at IS NULL LIMIT 1`. */
  ghost function FindActive(objects: map<nat, Row>, bucket: nat, key: string): (r: Option<nat>)
    ensures r.Some? ==> r.value in objects && Serves(objects[r.value], bucket, key)
    ensures r.None? ==> forall i :: i in objects ==> !Serves(objects[i], bucket, key)
  {
    if exists i :: i in objects && Serves(objects[i], bucket, key)
    then var i :| i in objects && Serves(objects[i], bucket, key); Some(i)
    else None
  }

  /** `LIMIT 1` without an order is deterministic only because active keys are unique. */
  lemma FindActiveUnique(objects: map<nat, Row>, bucket: nat, key: string, i: nat)
    requires UniqueKeys(objects) && i in objects && Serves(objects[i], bucket, key)
    ensures FindActive(objects, bucket, key) == Some(i)
  {
  }

  ghost predicate PathTaken(objects: map<nat, Row>, filepath: string) {
    exists i :: i in objects && objects[i].filepath == filepath
  }

  ghost function FindPath(objects: map<nat, Row>, filepath: string): (r: Option<nat>)
    ensures r.Some? ==> r.value in objects && objects[r.value].filepath == filepath
    ensures r.None? <==> !PathTaken(objects, filepath)
  {
    if PathTaken(objects, filepath)
    then var i :| i in objects && objects[i].filepath == filepath; Some(i)
    else None
  }

  ghost function FindBucket(buckets: map<nat, Bucket>, name: string): (r: Option<nat>)
    ensures r.Some? ==> r.value in buckets && buckets[r.value].name == name
    ensures r.None? ==> forall b :: b in buckets ==> buckets[b].name != name
  {
    if exists b :: b in buckets && buckets[b].name == name
    then var b :| b in buckets && buckets[b].name == name; Some(b)
    else None
  }

  // ----- Replication targets and jobs -----

  predicate Receives(b: Bucket, peer: string) {
    b.replicateToAll || peer in b.nodes
  }

  /** Active peers configured for a bucket, never the node itself. */
  function Receivers(peers: seq<Peer>, b: Bucket, self: string): seq<string> {
    if peers == [] then []
    else
      (if peers[0].active && peers[0].id != self && Receives(b, peers[0].id) then [peers[0].id] else []) +
      Receivers(peers[1..], b, self)
  }

  function Tickets(peers: seq<string>, oid: nat, filepath: string, etag: Etag, op: Operation): seq<Ticket> {
    seq(|peers|, i requires 0 <= i < |peers| => Ticket(peers[i], oid, filepath, etag, op))
  }

  /** `INSERT ... SELECT` joining the object and its bucket: nothing is enqueued once the row is gone. */
  function EnqueuedTickets(n: Node, self: string, oid: nat, filepath: string, etag: Etag, op: Operation): seq<Ticket> {
    if oid in n.objects && n.objects[oid].bucket in n.buckets
    then Tickets(Receivers(n.peers, n.buckets[n.objects[oid].bucket], self), oid, filepath, etag, op)
    else []
  }

  function EnqueueForPeers(n: Node, self: string, oid: nat, filepath: string, etag: Etag, op: Operation, now: int): Node {
    n.(queue := PushAll(n.queue, EnqueuedTickets(n, self, oid, filepath, etag, op), now))
  }

  // ----- Quota -----

  function Weight(objects: map<nat, Row>, bucket: nat, i: nat): nat {
    if i in objects && Active(objects[i]) && objects[i].bucket == bucket then objects[i].size else 0
  }

  /** Bytes of the active rows of a bucket among ids below `upTo`. */
  function UsedBelow(objects: map<nat, Row>, bucket: nat, upTo: nat): nat {
    if upTo == 0 then 0 else UsedBelow(objects, bucket, upTo - 1) + Weight(objects, bucket, upTo - 1)
  }

  function UsedBytes(n: Node, bucket: nat): nat {
    UsedBelow(n.objects, bucket, n.nextObject)
  }

  function SaturatingAdd(a: int, b: int): int {
    if a + b > I64_MAX then I64_MAX else a + b
  }

  predicate QuotaAllows(n: Node, bucket: nat, growth: int)
    requires bucket in n.buckets
  {
    growth <= 0 ||
    forall p :: p in n.buckets[bucket].nodes && n.buckets[bucket].nodes[p].hard ==>
      SaturatingAdd(UsedBytes(n, bucket), growth) <= n.buckets[bucket].nodes[p].bytes
  }

  // ----- PUT -----

  /** Where a PUT may be struck by an I/O or database error. `StreamFault(k)` is a body that breaks after k chunks. */
  datatype PutFault =
    | NoFault | StreamFault(chunks: nat) | BeginFault | LookupFault | QuotaFault | SoftDeleteFault
    | InsertFault | EnqueueFault | CommitFault

  datatype PutOutcome = Stored(id: nat) | QuotaExceeded | BucketMissing | Aborted

  datatype PutRequest = PutRequest(bucket: nat, key: string, alg: Option<EtagType>, chunks: seq<Bytes>,
                                   filepath: string, format: string)

  /** The bytes an upload puts on disk before anything else can happen to it. */
  function Written(req: PutRequest, fault: PutFault): Bytes {
    if fault.StreamFault? && fault.chunks <= |req.chunks| then Flatten(req.chunks[..fault.chunks]) else Flatten(req.chunks)
  }

  function Recycle(objects: map<nat, Row>, id: nat, now: int): map<nat, Row>
    requires id in objects
  {
    objects[id := objects[id].(deletedAt := Some(now), modified := now)]
  }

  ghost function RecycleActive(objects: map<nat, Row>, bucket: nat, key: string, now: int): map<nat, Row> {
    var found := FindActive(objects, bucket, key);
    if found.Some? then Recycle(objects, found.value, now) else objects
  }

  ghost function ReplacedSize(n: Node, bucket: nat, key: string): nat {
    var found := FindActive(n.objects, bucket, key);
    if found.Some? then n.objects[found.value].size else 0
  }

  function NewRow(n: Node, req: PutRequest, now: int): Row
    requires req.bucket in n.buckets
  {
    var alg := if req.alg.Some? then req.alg.value else n.buckets[req.bucket].etagType;
    var bytes := Flatten(req.chunks);
    Row(req.bucket, req.key, req.filepath, req.format, |bytes|, alg, Digest(alg, bytes), now, now, None)
  }

  /** The upload, step by step: write the blob, check the quota, recycle the old row (outside the transaction),
      insert and enqueue in one transaction. A step that fails unlinks the blob; a broken body does not. */
  ghost function PutObject(n: Node, self: string, req: PutRequest, fault: PutFault, now: int): (Node, PutOutcome) {
    if req.bucket !in n.buckets then (n, BucketMissing)
    else if fault.StreamFault? then
      (n.(blobs := n.blobs[req.filepath := Written(req, fault)]), Aborted)
    else
      var undone := n.(blobs := n.blobs - {req.filepath});
      var row := NewRow(n, req, now);
      if fault.BeginFault? || fault.LookupFault? || fault.QuotaFault? then (undone, Aborted)
      else if !QuotaAllows(n, req.bucket, row.size - ReplacedSize(n, req.bucket, req.key)) then (undone, QuotaExceeded)
      else if fault.SoftDeleteFault? then (undone, Aborted)
      else
        var recycled := RecycleActive(n.objects, req.bucket, req.key, now);
        if fault.InsertFault? || fault.EnqueueFault? || fault.CommitFault? || PathTaken(recycled, req.filepath) then
          (undone.(objects := recycled), Aborted)
        else
          var id := n.nextObject;
          var inserted := n.(objects := recycled[id := row], nextObject := id + 1,
                             blobs := n.blobs[req.filepath := Flatten(req.chunks)]);
          (EnqueueForPeers(inserted, self, id, req.filepath, row.etag, Put, now), Stored(id))
  }

  // ----- Recycle bin -----

  function SoftDelete(n: Node, id: nat, now: int): Node {
    if id in n.objects && Active(n.objects[id]) then n.(objects := Recycle(n.objects, id, now)) else n
  }

  /** The rows a prefix operation of a bucket reaches: selected by LIKE, so up to ASCII case. */
  function LikeRows(objects: map<nat, Row>, bucket: nat, prefix: string): set<nat> {
    set i | i in objects && Active(objects[i]) && objects[i].bucket == bucket && Like(PrefixPattern(prefix), objects[i].key)
  }

  function SoftDeletePrefix(n: Node, bucket: nat, prefix: string, now: int): Node {
    var hit := LikeRows(n.objects, bucket, prefix);
    n.(objects := map i | i in n.objects ::
         if i in hit then n.objects[i].(deletedAt := Some(now), modified := now) else n.objects[i])
  }

  datatype RestoreOutcome = Restored | NotFound | NotRecycled | KeyInUse

  ghost function Restore(n: Node, id: nat, now: int): (Node, RestoreOutcome) {
    if id !in n.objects then (n, NotFound)
    else if Active(n.objects[id]) then (n, NotRecycled)
    else if FindActive(n.objects, n.objects[id].bucket, n.objects[id].key).Some? then (n, KeyInUse)
    else (n.(objects := n.objects[id := n.objects[id].(deletedAt := None, modified := now)]), Restored)
  }

  /** Enqueue the DELETEs, remove the row (nulling its jobs' references) and unlink the blob. */
  function Purge(n: Node, self: string, id: nat, now: int): Node {
    if id !in n.objects then n
    else
      var row := n.objects[id];
      var m := EnqueueForPeers(n, self, id, row.filepath, row.etag, Delete, now);
      m.(objects := m.objects - {id}, queue := Detach(m.queue, id), blobs := m.blobs - {row.filepath})
  }

  // ----- Rename -----

  datatype RenameOutcome = Renamed(count: nat) | FolderEmpty | TargetExists

  function Rebase(key: string, from: string, to: string): string
    requires from <= key
  {
    to + key[|from|..]
  }

  /** Rows whose key really begins with `from`: what is left after `strip_prefix`. */
  function RenameRows(objects: map<nat, Row>, bucket: nat, from: string): set<nat> {
    set i | i in LikeRows(objects, bucket, from) && from <= objects[i].key
  }

  predicate RenameBlocked(objects: map<nat, Row>, bucket: nat, from: string, to: string) {
    exists i, j :: i in RenameRows(objects, bucket, from) && j in objects &&
      Serves(objects[j], bucket, Rebase(objects[i].key, from, to))
  }

  /** The table after the rows `ids` have been rewritten. */
  function RenameSome(objects: map<nat, Row>, ids: set<nat>, from: string, to: string, now: int): map<nat, Row>
    requires forall i :: i in ids ==> i in objects && from <= objects[i].key
  {
    map i | i in objects ::
      if i in ids then objects[i].(key := Rebase(objects[i].key, from, to), modified := now) else objects[i]
  }

  function RenamePrefix(n: Node, bucket: nat, from: string, to: string, now: int): (Node, RenameOutcome) {
    if from == to then (n, Renamed(0))
    else if LikeRows(n.objects, bucket, from) == {} then (n, FolderEmpty)
    else if RenameBlocked(n.objects, bucket, from, to) then (n, TargetExists)
    else
      var ids := RenameRows(n.objects, bucket, from);
      (n.(objects := RenameSome(n.objects, ids, from, to, now)), Renamed(|ids|))
  }

  // ----- Rehash -----

  /** Re-hash one object from its blob and announce the new etag. The update stands even when the transaction that
      announces it fails. */
  function Rehash(n: Node, self: string, id: nat, alg: EtagType, announced: bool, now: int): Node {
    if id in n.objects && Active(n.objects[id]) && n.objects[id].filepath in n.blobs then
      var row := n.objects[id];
      var etag := Digest(alg, n.blobs[row.filepath]);
      var m := n.(objects := n.objects[id := row.(etagType := alg, etag := etag, modified := now)]);
      if announced then EnqueueForPeers(m, self, id, row.filepath, etag, Put, now) else m
    else n
  }

  // ----- Receiving side -----

  datatype PutMessage = PutMessage(name: string, filepath: string, format: string, etagType: EtagType, etag: Etag,
                                   uploaded: int, modified: int, bucketName: string, chunks: seq<Bytes>)

  function TargetName(raw: string): string {
    if Trim(raw) == "" then DEFAULT_BUCKET else Trim(raw)
  }

  /** Find the bucket by name or create it, replicating to all. */
  ghost function EnsureBucket(n: Node, name: string): (Node, nat) {
    var found := FindBucket(n.buckets, name);
    if found.Some? then (n, found.value)
    else (n.(buckets := n.buckets[n.nextBucket := Bucket(name, true, map[], Md5)], nextBucket := n.nextBucket + 1), n.nextBucket)
  }

  /** `INSERT ... ON CONFLICT(filepath) DO NOTHING`; a clash on the active key is an error. */
  ghost function InsertIdempotent(n: Node, row: Row): (Node, bool) {
    if PathTaken(n.objects, row.filepath) then (n, true)
    else if FindActive(n.objects, row.bucket, row.key).Some? then (n, false)
    else (n.(objects := n.objects[n.nextObject := row], nextObject := n.nextObject + 1), true)
  }

  /** Write and verify the payload, then record the object. A mismatch removes the file that was just overwritten. */
  ghost function ReceivePut(n: Node, m: PutMessage): (Node, bool) {
    var bytes := Flatten(m.chunks);
    if Digest(m.etagType, bytes) != m.etag then (n.(blobs := n.blobs - {m.filepath}), false)
    else
      var (placed, bucket) := EnsureBucket(n.(blobs := n.blobs[m.filepath := bytes]), TargetName(m.bucketName));
      InsertIdempotent(placed, Row(bucket, m.name, m.filepath, m.format, |bytes|, m.etagType, m.etag, m.uploaded, m.modified, None))
  }

  /** Unlink and delete, whether or not anything is there. Removing a row nulls its jobs' references. */
  ghost function ReceiveDelete(n: Node, filepath: string): Node {
    var m := n.(blobs := n.blobs - {filepath});
    var found := FindPath(n.objects, filepath);
    if found.Some? then m.(objects := m.objects - {found.value}, queue := Detach(m.queue, found.value)) else m
  }

  // ----- Sending side -----

  /** The object columns the claim query joins in. */
  function JoinedMeta(n: Node): map<nat, Meta> {
    map i | i in n.objects && n.objects[i].bucket in n.buckets ::
      var r := n.objects[i];
      Meta(r.key, r.filepath, r.format, r.size, r.etagType, r.etag, r.uploaded, r.modified, n.buckets[r.bucket].name)
  }

  function ActivePeers(n: Node): set<string> {
    set i | 0 <= i < |n.peers| && n.peers[i].active :: n.peers[i].id
  }

  function ClaimJobs(n: Node, now: int): Node {
    n.(queue := Claim(n.queue, now, ActivePeers(n), JoinedMeta(n)))
  }

  /** The message for a claimed PUT, with the fallbacks for a row that is gone. */
  function MessageFor(c: Claimed, chunks: seq<Bytes>, now: int): PutMessage {
    match c.meta
    case Some(m) => PutMessage(m.name, m.filepath, m.format, m.etagType, m.etag, m.uploaded, m.modified, m.bucketName, chunks)
    case None => PutMessage(c.filepath, c.filepath, "bin", Md5, c.etag, now, now, DEFAULT_BUCKET, chunks)
  }

  /** What the sender may stream: nothing when the blob is gone, otherwise the blob, or a prefix after a read error,
      cut into chunks in any way. */
  predicate MaySend(n: Node, filepath: string, chunks: seq<Bytes>) {
    if filepath in n.blobs then Flatten(chunks) <= n.blobs[filepath] else chunks == []
  }

  /** The file a claimed PUT is read from. */
  function SourcePath(c: Claimed): string {
    if c.meta.Some? then c.meta.value.filepath else c.filepath
  }
}
