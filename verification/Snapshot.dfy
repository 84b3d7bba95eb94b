/** The bytes of one cached generation and how a reader judges them
    (crates/jabar-server/src/index_cache.rs:60-67, 100-125, 151-187, 284-337). The
    encoding of the index itself is a given lossless one: `body` stands for it. */
module Snapshot {
  import opened Wrappers

  type Bytes = seq<bv8>

  const VERSION: nat := 3

  /** `JABARIDX`, then the version as four little-endian bytes. */
  const HEADER: Bytes := [0x4a, 0x41, 0x42, 0x41, 0x52, 0x49, 0x44, 0x58, 3, 0, 0, 0]

  type CacheKey = string
  type Shards = seq<string>

  /** What one `store` call publishes. */
  datatype Job = Job(key: CacheKey, shards: Shards, body: Bytes)

  datatype Manifest = Manifest(version: nat, key: CacheKey, shards: Shards, bytes: nat, checksum: bv64)

  datatype Outcome = Hit(body: Bytes, shards: Shards, bytes: nat) | Miss | Failed

  // ---- the running checksum ----

  const FNV_OFFSET: bv64 := 0xcbf29ce484222325
  const FNV_PRIME: bv64 := 0x100000001b3

  function Mix(sum: bv64, byte: bv8): bv64 {
    (sum ^ (byte as bv64)) * FNV_PRIME
  }

  function Digest(sum: bv64, bytes: Bytes): bv64 {
    if bytes == [] then sum else Mix(Digest(sum, bytes[..|bytes| - 1]), bytes[|bytes| - 1])
  }

  /** Reading in other pieces than were written gives the same checksum. */
  lemma {:induction false} DigestInPieces(sum: bv64, a: Bytes, b: Bytes)
    ensures Digest(sum, a + b) == Digest(Digest(sum, a), b)
    decreases |b|
  {
    hide Mix;
    if b == [] {
      assert a + b == a;
    } else {
      DigestInPieces(sum, a, b[..|b| - 1]);
      assert (a + b)[..|a + b| - 1] == a + b[..|b| - 1];
    }
  }

  /** `update_checksum`. */
  method UpdateChecksum(sum: bv64, bytes: Bytes) returns (r: bv64)
    ensures r == Digest(sum, bytes)
  {
    hide Mix;
    r := sum;
    for i := 0 to |bytes|
      invariant r == Digest(sum, bytes[..i])
    {
      assert bytes[..i + 1][..i] == bytes[..i];
      r := Mix(r, bytes[i]);
    }
    assert bytes[..|bytes|] == bytes;
  }

  // ---- writing and reading a generation ----

  function FileOf(job: Job): Bytes {
    HEADER + job.body
  }

  function ManifestOf(job: Job): Manifest {
    Manifest(VERSION, job.key, job.shards, |FileOf(job)|, Digest(FNV_OFFSET, FileOf(job)))
  }

  predicate Accepts(manifest: Manifest, key: CacheKey) {
    manifest.version == VERSION && manifest.key == key
  }

  /** What `load` makes of an index file once the manifest is accepted. */
  function Judge(manifest: Manifest, file: Bytes): Outcome {
    if |file| != manifest.bytes then Miss
    else if |file| < |HEADER| then Failed
    else if file[..|HEADER|] != HEADER then Miss
    else if Digest(FNV_OFFSET, file) != manifest.checksum then Miss
    else Hit(file[|HEADER|..], manifest.shards, manifest.bytes)
  }

  /** What a reader accepts: a manifest of this version under its own key, and a file of the
      length recorded, with the magic word and the version in front, that sums up to the
      checksum recorded. It gets what follows the header. */
  lemma HitExactly(manifest: Manifest, key: CacheKey, file: Bytes)
    ensures Accepts(manifest, key) <==> manifest.version == 3 && manifest.key == key
    ensures Judge(manifest, file).Hit? <==>
            && |file| == manifest.bytes && |file| >= 12
            && file[..8] == [0x4a, 0x41, 0x42, 0x41, 0x52, 0x49, 0x44, 0x58] && file[8..12] == [3, 0, 0, 0]
            && Digest(0xcbf29ce484222325, file) == manifest.checksum
    ensures Judge(manifest, file).Hit? ==> Judge(manifest, file) == Hit(file[12..], manifest.shards, |file|)
    ensures Judge(manifest, file).Failed? <==> |file| == manifest.bytes && |file| < 12
  {
    hide Digest;
    if |file| >= 12 {
      assert file[..12] == file[..8] + file[8..12];
      assert HEADER == HEADER[..8] + HEADER[8..];
      assert file[..12][..8] == file[..8] && file[..12][8..] == file[8..12];
    }
  }

  /** The published test vectors of the 64-bit FNV-1a hash for "", "a" and "ab". */
  lemma DigestIsFnv1a()
    ensures Digest(FNV_OFFSET, []) == 0xcbf29ce484222325
    ensures Digest(FNV_OFFSET, [0x61]) == 0xaf63dc4c8601ec8c
    ensures Digest(FNV_OFFSET, [0x61, 0x62]) == 0x089c4407b545986a
  {
    assert [0x61 as bv8, 0x62][..1] == [0x61] && [0x61 as bv8][..0] == [];
  }

  /** No check rejects what a `store` call wrote. */
  lemma JudgeOwn(job: Job)
    ensures Judge(ManifestOf(job), FileOf(job)) == Hit(job.body, job.shards, |FileOf(job)|)
  {
    hide Digest;
    assert FileOf(job)[|HEADER|..] == job.body;
  }
}
