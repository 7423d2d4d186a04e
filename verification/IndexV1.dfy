/**
 Which bytes are a v1 blob: the first form, with entries of one fixed size and no gaps.
 */
module IndexV1 {
  import opened Words
  import opened Gbci
  import Prefixes
  import opened IndexForms

  /** Entry i of a body of entries of one size starts at i * size; its first eight bytes are its key. */
  ghost predicate HoldsKeys(body: seq<byte>, size: nat, keys: seq<u64>) {
    && |body| == |keys| * size && size >= 8
    && forall i | 0 <= i < |keys| :: EntryIs(body, i, size, keys[i])
  }

  ghost predicate EntryIs(body: seq<byte>, i: nat, size: nat, key: u64) {
    i * size + 8 <= |body| && Prefixes.GetBE(body[i * size..i * size + 8]) == key
  }

  lemma EntryInFront(body: seq<byte>, front: seq<byte>, i: nat, size: nat, key: u64)
    requires front <= body && i * size + 8 <= |front|
    ensures EntryIs(front, i, size, key) <==> EntryIs(body, i, size, key)
  {
    assert front[i * size..i * size + 8] == body[i * size..i * size + 8];
  }

  /** The entries read are those the body holds. */
  lemma {:induction false} ReadsEntries(body: seq<byte>, size: nat, n: nat)
    requires size >= 8 && |body| == n * size
    ensures |body| % size == 0 && |ReadEntries(body, size)| == n && HoldsKeys(body, size, ReadEntries(body, size))
    decreases n
  {
    DivModUnique(|body|, size, n, 0);
    if n > 0 {
      var m := |body| - size;
      assert m == (n - 1) * size;
      ReadsEntries(body[..m], size, n - 1);
      var front, keys := ReadEntries(body[..m], size), ReadEntries(body, size);
      assert keys == front + [Word(body[m..m + 8])];
      forall i | 0 <= i < n
        ensures EntryIs(body, i, size, keys[i])
      {
        if i < n - 1 {
          assert EntryIs(body[..m], i, size, front[i]);
          EntryInFront(body, body[..m], i, size, keys[i]);
        }
      }
    } else {
      assert body == [];
    }
  }

  lemma {:induction false} SameKeys(body: seq<byte>, size: nat, a: seq<u64>, b: seq<u64>)
    requires HoldsKeys(body, size, a) && HoldsKeys(body, size, b)
    ensures a == b
  {
    assert |a| == |b| by { DivModUnique(|body|, size, |a|, 0); DivModUnique(|body|, size, |b|, 0); }
    forall i | 0 <= i < |a|
      ensures a[i] == b[i]
    {
      assert EntryIs(body, i, size, a[i]) && EntryIs(body, i, size, b[i]);
    }
  }

  /** The bytes of a v1 blob with these keys: header, entries of 8 or of 32 bytes, and the digest of both. */
  ghost predicate IsV1(sha: Sha, blob: seq<byte>, keys: seq<u64>) {
    && |blob| >= 56 && blob[..5] == [0x47, 0x42, 0x43, 0x49, 1] && (blob[5] == 8 || blob[5] == 32)
    && HoldsKeys(blob[24..|blob| - 32], blob[5], keys) && GetLE(blob[16..24]) == |keys|
    && blob[|blob| - 32..] == sha(blob[..|blob| - 32])
  }

  /** When bytes of version 1 parse, and to what. */
  lemma VersionOne(sha: Sha, blob: seq<byte>)
    requires |blob| >= 56 && blob[4] == 1
    ensures ParseBlob(sha, blob).Keys? <==>
            && blob[..4] == MAGIC && (blob[5] == 8 || blob[5] == 32)
            && |Body(blob)| % blob[5] == 0 && Count(blob) == |Body(blob)| / blob[5] && TrailerHolds(sha, blob)
    ensures ParseBlob(sha, blob).Keys? ==> ParseBlob(sha, blob) == Keys(ReadEntries(Body(blob), blob[5]), 0)
  {
    hide ReadEntries, GetLE;
  }

  lemma TooShort(sha: Sha, blob: seq<byte>)
    requires |blob| < 56
    ensures !ParseBlob(sha, blob).Keys?
  {
  }

  /** Arbitrary bytes of version 1 parse to these keys if and only if they are a v1 blob with them. */
  lemma {:induction false} ParseV1Exactly(sha: Sha, blob: seq<byte>, keys: seq<u64>)
    ensures |blob| > 4 && blob[4] == 1 && ParseBlob(sha, blob) == Keys(keys, 0) <==> IsV1(sha, blob, keys)
  {
    hide ReadEntries, HoldsKeys, GetLE, ParseBlob;
    if |blob| < 56 {
      TooShort(sha, blob);
    } else {
      assert blob[..5] == blob[..4] + [blob[4]];
      if blob[4] == 1 { VersionOne(sha, blob); }
      if blob[5] == 8 || blob[5] == 32 { EntriesAre(Body(blob), blob[5], keys); }
    }
  }

  /** A body holds these keys exactly if it is a whole number of entries and reads as them. */
  lemma {:induction false} EntriesAre(body: seq<byte>, size: nat, keys: seq<u64>)
    requires size >= 8
    ensures HoldsKeys(body, size, keys) <==> |body| % size == 0 && ReadEntries(body, size) == keys
    ensures |body| % size == 0 ==> |ReadEntries(body, size)| == |body| / size
  {
    hide ReadEntries, HoldsKeys;
    if |body| % size == 0 {
      assert |body| == (|body| / size) * size;
      ReadsEntries(body, size, |body| / size);
      if HoldsKeys(body, size, keys) { SameKeys(body, size, keys, ReadEntries(body, size)); }
    } else {
      NotWhole(body, size, keys);
    }
  }

  lemma NotWhole(body: seq<byte>, size: nat, keys: seq<u64>)
    requires size >= 8 && |body| % size != 0
    ensures !HoldsKeys(body, size, keys)
  {
    if |body| == |keys| * size { DivModUnique(|body|, size, |keys|, 0); }
  }
}
