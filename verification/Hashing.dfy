/** Streaming multi-algorithm hashing, with the digest itself kept symbolic. */
module Hashing {
  import opened Basics

  datatype EtagType = Md5 | Sha256 | Sha512 | Blake2_128 | Blake2_256 | Blake3_128 | Blake3_256

  /** A digest is its algorithm together with the bytes that were hashed, so distinct inputs have
      distinct digests: the idealisation of a collision-free hash. The program only compares digests. */
  datatype Etag = Digest(alg: EtagType, hashed: Bytes)

  /** The accumulator behind every upload: bytes go in piece by piece, one digest comes out. */
  class StreamingHasher {
    const alg: EtagType
    var absorbed: Bytes

    constructor (alg: EtagType)
      ensures this.alg == alg && absorbed == []
    {
      this.alg := alg;
      absorbed := [];
    }

    method Update(data: Bytes)
      modifies this
      ensures absorbed == old(absorbed) + data
    {
      absorbed := absorbed + data;
    }

    method Finalize() returns (etag: Etag)
      ensures etag == Digest(alg, absorbed)
    {
      etag := Digest(alg, absorbed);
    }
  }

  /** Feeding a stream in any chunking gives the digest of the concatenated bytes. */
  method DigestChunks(alg: EtagType, chunks: seq<Bytes>) returns (etag: Etag, total: nat)
    ensures etag == Digest(alg, Flatten(chunks))
    ensures total == |Flatten(chunks)|
  {
    var hasher := new StreamingHasher(alg);
    total := 0;
    for i := 0 to |chunks|
      invariant hasher.alg == alg
      invariant hasher.absorbed == Flatten(chunks[..i])
      invariant total == |Flatten(chunks[..i])|
    {
      FlattenSnoc(chunks[..i], chunks[i]);
      assert chunks[..i] + [chunks[i]] == chunks[..i + 1];
      hasher.Update(chunks[i]);
      total := total + |chunks[i]|;
    }
    assert chunks[..|chunks|] == chunks;
    etag := hasher.Finalize();
  }
}
