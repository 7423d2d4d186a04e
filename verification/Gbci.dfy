/**
 The GBCI frame: a 24-byte header, a body, and a SHA-256 trailer over both.

 SHA-256 is a parameter. Everything proved here holds for any function with 32-byte digests.
 */
module Gbci {
  import opened Words

  type Sha = f: seq<byte> -> seq<byte> | forall s: seq<byte> :: |f(s)| == 32
    witness (s: seq<byte>) => seq(32, _ => 0)

  const HEADER_SIZE := 24
  const TRAILER_SIZE := 32
  const MAGIC: seq<byte> := [0x47, 0x42, 0x43, 0x49]

  /** The first n bytes of v, least significant first. */
  function PutLE(v: nat, n: nat): (r: seq<byte>)
    ensures |r| == n
  {
    if n == 0 then [] else [v % 256] + PutLE(v / 256, n - 1)
  }

  function GetLE(s: seq<byte>): nat {
    if s == [] then 0 else s[0] + 256 * GetLE(s[1..])
  }

  lemma {:induction false} GetPutLE(v: nat, n: nat)
    requires v < Pow2(8 * n)
    ensures GetLE(PutLE(v, n)) == v
  {
    if n > 0 {
      Pow2Word();
      Pow2Add(8, 8 * (n - 1));
      assert 8 + 8 * (n - 1) == 8 * n;
      GetPutLE(v / 256, n - 1);
      assert PutLE(v, n)[1..] == PutLE(v / 256, n - 1);
    }
  }

  lemma {:induction false} GetLEBound(s: seq<byte>)
    ensures GetLE(s) < Pow2(8 * |s|)
  {
    if s != [] {
      GetLEBound(s[1..]);
      Pow2Word();
      Pow2Add(8, 8 * (|s| - 1));
      assert 8 + 8 * (|s| - 1) == 8 * |s|;
    }
  }

  function Header(sha: Sha, version: byte, width: byte, k: byte, count: nat, body: seq<byte>): (h: seq<byte>)
    ensures |h| == HEADER_SIZE
  {
    MAGIC + [version, width, k, 0] + sha(body)[..8] + PutLE(count, 8)
  }

  function Frame(sha: Sha, version: byte, width: byte, k: byte, count: nat, body: seq<byte>): (blob: seq<byte>)
    ensures |blob| == HEADER_SIZE + |body| + TRAILER_SIZE
  {
    var h := Header(sha, version, width, k, count, body);
    h + body + sha(h + body)
  }

  predicate LongEnough(blob: seq<byte>) {
    |blob| >= HEADER_SIZE + TRAILER_SIZE
  }

  function Body(blob: seq<byte>): seq<byte>
    requires LongEnough(blob)
  {
    blob[HEADER_SIZE..|blob| - TRAILER_SIZE]
  }

  function Count(blob: seq<byte>): u64
    requires LongEnough(blob)
  {
    CountBound(blob[16..24]);
    GetLE(blob[16..24])
  }

  lemma CountBound(s: seq<byte>)
    requires |s| == 8
    ensures GetLE(s) < WORD
  {
    GetLEBound(s);
    Pow2Word();
  }

  /** The trailer is the digest of all that comes before it. */
  predicate TrailerHolds(sha: Sha, blob: seq<byte>)
    requires LongEnough(blob)
  {
    sha(blob[..|blob| - TRAILER_SIZE]) == blob[|blob| - TRAILER_SIZE..]
  }

  /** The strong ETag names the blob by its trailer. */
  function ETag(blob: seq<byte>): seq<byte>
    requires LongEnough(blob)
  {
    blob[|blob| - TRAILER_SIZE..]
  }

  lemma {:induction false} CountReadsBack(count: u64)
    ensures GetLE(PutLE(count, 8)) == count
  {
    Pow2Word();
    GetPutLE(count, 8);
  }

  /** Every field reads back what the frame was made of. */
  lemma {:induction false} FrameFields(sha: Sha, version: byte, width: byte, k: byte, count: u64, body: seq<byte>)
    ensures var blob := Frame(sha, version, width, k, count, body);
            LongEnough(blob) && blob[..4] == MAGIC && blob[4] == version && blob[5] == width && blob[6] == k
            && Body(blob) == body && Count(blob) == count && TrailerHolds(sha, blob)
  {
    var h := Header(sha, version, width, k, count, body);
    var blob := Frame(sha, version, width, k, count, body);
    assert blob[..24] == h;
    assert h[..4] == MAGIC;
    assert blob[16..24] == h[16..24] == PutLE(count, 8);
    CountReadsBack(count);
    assert blob[..|blob| - 32] == h + body;
  }
}
