/** The receiving side of replication as it runs: the message stream is collected, then stored, verified and recorded. */
module ReplicationServer {
  import opened Basics
  import opened Hashing
  import opened Outbox
  import opened Text
  import opened Store
  import opened NodeServers

  /** The metadata message of a PUT stream. */
  datatype Header = Header(name: string, filepath: string, format: string, etagType: EtagType, etag: Etag,
                           uploaded: int, modified: int, bucketName: string)

  datatype Content = Metadata(header: Header) | Payload(bytes: Bytes) | Nothing

  /** The last metadata message wins. */
  function HeaderOf(stream: seq<Content>): Option<Header> {
    if stream == [] then None
    else
      var last := stream[|stream| - 1];
      if last.Metadata? then Some(last.header) else HeaderOf(stream[..|stream| - 1])
  }

  function PayloadOf(stream: seq<Content>): seq<Bytes> {
    if stream == [] then []
    else
      var last := stream[|stream| - 1];
      PayloadOf(stream[..|stream| - 1]) + (if last.Payload? then [last.bytes] else [])
  }

  function MessageOf(h: Header, chunks: seq<Bytes>): PutMessage {
    PutMessage(h.name, h.filepath, h.format, h.etagType, h.etag, h.uploaded, h.modified, h.bucketName, chunks)
  }

  /** Of several metadata messages the last one counts, and all payloads do, in their order. */
  lemma {:induction false} CollectsExactly(before: seq<Content>, header: Header, after: seq<Content>)
    requires forall k :: 0 <= k < |after| ==> !after[k].Metadata?
    ensures HeaderOf(before + [Metadata(header)] + after) == Some(header)
    ensures PayloadOf(before + [Metadata(header)] + after) == PayloadOf(before) + PayloadOf(after)
  {
    var stream := before + [Metadata(header)] + after;
    if after == [] {
      assert stream[..|stream| - 1] == before;
    } else {
      assert stream[..|stream| - 1] == before + [Metadata(header)] + after[..|after| - 1];
      CollectsExactly(before, header, after[..|after| - 1]);
    }
  }

  /** Without one there is no header. */
  lemma {:induction false} NoHeader(stream: seq<Content>)
    requires forall k :: 0 <= k < |stream| ==> !stream[k].Metadata?
    ensures HeaderOf(stream) == None
  {
    if stream != [] { NoHeader(stream[..|stream| - 1]); }
  }

  /** Each payload counts once, and an empty message not at all. */
  lemma PayloadsExactly(stream: seq<Content>, bytes: Bytes)
    ensures PayloadOf([]) == [] && PayloadOf(stream + [Payload(bytes)]) == PayloadOf(stream) + [bytes]
    ensures PayloadOf(stream + [Nothing]) == PayloadOf(stream)
  {
    assert (stream + [Payload(bytes)])[..|stream|] == stream && (stream + [Nothing])[..|stream|] == stream;
  }

  method CollectStream(stream: seq<Content>) returns (header: Option<Header>, chunks: seq<Bytes>)
    ensures header == HeaderOf(stream) && chunks == PayloadOf(stream)
  {
    header, chunks := None, [];
    for i := 0 to |stream|
      invariant header == HeaderOf(stream[..i]) && chunks == PayloadOf(stream[..i])
    {
      assert stream[..i + 1][..i] == stream[..i];
      match stream[i] {
        case Metadata(h) => header := Some(h);
        case Payload(bytes) => chunks := chunks + [bytes];
        case Nothing =>
      }
    }
    assert stream[..|stream|] == stream;
  }

  /** `ensure_bucket`. */
  method ResolveBucket(s: NodeServer, name: string) returns (id: nat)
    requires TidyBuckets(s.buckets, s.nextBucket)
    modifies s`buckets, s`nextBucket
    ensures s.State() == EnsureBucket(old(s.State()), name).0
    ensures id == EnsureBucket(old(s.State()), name).1
  {
    if b :| b in s.buckets && s.buckets[b].name == name {
      id := b;
    } else {
      id := s.nextBucket;
      s.buckets, s.nextBucket := s.buckets[id := Bucket(name, true, map[], Md5)], s.nextBucket + 1;
    }
  }

  /** `insert_object_idempotent`. */
  method InsertObjectIdempotent(s: NodeServer, row: Row) returns (ok: bool)
    requires UniqueKeys(s.objects) && UniquePaths(s.objects)
    modifies s`objects, s`nextObject
    ensures s.State() == InsertIdempotent(old(s.State()), row).0
    ensures ok == InsertIdempotent(old(s.State()), row).1
  {
    var same := s.RowAt(row.filepath);
    if same.Some? { return true; }
    var rival := s.ActiveRow(row.bucket, row.key);
    if rival.Some? { return false; }
    s.objects, s.nextObject := s.objects[s.nextObject := row], s.nextObject + 1;
    ok := true;
  }

  /** `replicate_object`: without metadata nothing happens; otherwise the stream is stored and verified, and recorded
      only when its digest is the announced one. */
  method ReplicateObject(s: NodeServer, stream: seq<Content>) returns (ok: bool)
    requires Sound(s.State())
    modifies s`objects, s`nextObject, s`buckets, s`nextBucket, s`blobs
    ensures HeaderOf(stream).None? ==> !ok && s.State() == old(s.State())
    ensures HeaderOf(stream).Some? ==> s.State() == ReceivePut(old(s.State()), MessageOf(HeaderOf(stream).value, PayloadOf(stream))).0
    ensures HeaderOf(stream).Some? ==> ok == ReceivePut(old(s.State()), MessageOf(HeaderOf(stream).value, PayloadOf(stream))).1
  {
    var header, chunks := CollectStream(stream);
    if header.None? { return false; }
    var meta := header.value;
    var stored := s.PutChunks(meta.filepath, chunks, None, meta.etagType, Some(meta.etag));
    if stored.None? { return false; }
    var name := if Trim(meta.bucketName) == "" then DEFAULT_BUCKET else Trim(meta.bucketName);
    var bucket := ResolveBucket(s, name);
    ok := InsertObjectIdempotent(s, Row(bucket, meta.name, meta.filepath, meta.format, stored.value.0, meta.etagType, stored.value.1,
                                        meta.uploaded, meta.modified, None));
  }

  /** `delete_object`: unlink and delete, whether or not anything is there. */
  method DeleteObject(s: NodeServer, filepath: string)
    requires UniquePaths(s.objects)
    modifies s`objects, s`jobs, s`blobs
    ensures s.State() == ReceiveDelete(old(s.State()), filepath)
  {
    s.Unlink(filepath);
    var found := s.RowAt(filepath);
    if found.Some? {
      s.objects := s.objects - {found.value};
      s.jobs := map j | j in s.jobs :: if s.jobs[j].objectId == Some(found.value) then s.jobs[j].(objectId := None) else s.jobs[j];
    }
  }

  // ----- The sending side of the stream -----

  function Payloads(chunks: seq<Bytes>): seq<Content> {
    if chunks == [] then [] else Payloads(chunks[..|chunks| - 1]) + [Payload(chunks[|chunks| - 1])]
  }

  lemma {:induction false} PayloadsCollect(h: Header, chunks: seq<Bytes>)
    ensures HeaderOf([Metadata(h)] + Payloads(chunks)) == Some(h) && PayloadOf([Metadata(h)] + Payloads(chunks)) == chunks
  {
    var stream := [Metadata(h)] + Payloads(chunks);
    if chunks == [] {
      assert stream == [Metadata(h)] && stream[..0] == [];
    } else {
      PayloadsCollect(h, chunks[..|chunks| - 1]);
      assert stream[..|stream| - 1] == [Metadata(h)] + Payloads(chunks[..|chunks| - 1]);
    }
  }

  /** The metadata `replicate_put` sends for a claimed job, with its fallbacks for an object row that is gone. */
  function HeaderFor(c: Claimed, now: int): Header {
    match c.meta
    case Some(m) => Header(m.name, m.filepath, m.format, m.etagType, m.etag, m.uploaded, m.modified, m.bucketName)
    case None => Header(c.filepath, c.filepath, "bin", Md5, c.etag, now, now, DEFAULT_BUCKET)
  }

  /** A sent stream arrives as the message of its job. */
  lemma StreamCarriesMessage(c: Claimed, chunks: seq<Bytes>, now: int)
    ensures var stream := [Metadata(HeaderFor(c, now))] + Payloads(chunks);
      HeaderOf(stream).Some? && MessageOf(HeaderOf(stream).value, PayloadOf(stream)) == MessageFor(c, chunks, now)
  {
    PayloadsCollect(HeaderFor(c, now), chunks);
  }
}
