/**
 Key sets and blobs on the client: what a blob holds as a key set, and the blob of a key set.
 */
module ClientBlobs {
  import opened Words
  import opened Sorted
  import Prefixes
  import opened Gbci
  import opened IndexV2
  import opened IndexForms
  import opened KeySet

  /** A blob the client accepts. */
  predicate Accepted(sha: Sha, blob: seq<byte>) {
    ParseBlob(sha, blob).Keys?
  }

  ghost function KeysOf(sha: Sha, blob: seq<byte>): View
    requires Accepted(sha, blob)
  {
    var d := ParseBlob(sha, blob);
    View(Elements(d.keys), d.shift)
  }

  /** Whatever bytes a blob is, the keys it gives are masked to its width. */
  lemma {:induction false} KeysOfMasks(sha: Sha, blob: seq<byte>)
    requires Accepted(sha, blob)
    ensures KeysOf(sha, blob).Masks() && KeysOf(sha, blob).shift <= 32 && LongEnough(blob)
  {
    hide Parse, ParseV1, ReadEntries, Prefixes.Masked, Pow2;
    var d := ParseBlob(sha, blob);
    if blob[4] == VERSION1 {
      V1Keys(sha, blob);
      forall k | k in Elements(d.keys)
        ensures 0 <= k < WORD && Prefixes.Masked(k, 0) == k
      {
        MaskNothing(k);
      }
    } else {
      var Parsed(values, w) := Parse(sha, blob);
      ParseIsSound(sha, blob);
      forall k | k in Elements(d.keys)
        ensures 0 <= k < WORD && Prefixes.Masked(k, 64 - w) == k
      {
        var i :| 0 <= i < |d.keys| && d.keys[i] == k;
        ShiftedMasks(values[i], 64 - w);
      }
    }
  }

  lemma V1Keys(sha: Sha, blob: seq<byte>)
    requires LongEnough(blob) && ParseV1(sha, blob).Keys?
    ensures ParseV1(sha, blob).shift == 0
  {
  }

  lemma MaskNothing(k: u64)
    ensures Prefixes.Masked(k, 0) == k
  {
    assert k / 1 * 1 == k;
  }

  lemma {:induction false} ShiftedMasks(v: int, shift: nat)
    requires shift <= 64
    ensures Prefixes.Masked(ShiftUp(v, shift), shift) == ShiftUp(v, shift)
  {
    hide Pow2;
    var p, t := Pow2(shift), Pow2(64 - shift);
    Pow2Word();
    Pow2Add(64 - shift, shift);
    ScaleModInt(v, t, p);
    DivModUnique(ShiftUp(v, shift), p, v % t, 0);
  }

  lemma ScaleModInt(x: int, t: nat, p: nat)
    requires p > 0 && t > 0
    ensures t * p > 0 && x * p % (t * p) == x % t * p
  {
    var q, r := x / t, x % t;
    assert x == t * q + r;
    assert x * p == q * (t * p) + r * p;
    MulLt(r, t, p);
    DivModUnique(x * p, t * p, q, r * p);
  }

  /** The prefixes of a key set, right-aligned. */
  ghost function Aligned(members: set<int>, shift: nat): set<int> {
    set k: u64 | k in members :: Align(k, shift)
  }

  function Align(k: u64, shift: nat): nat {
    Shr(k, shift)
  }

  /** marshalIndex: a v2 blob at the width of the set. */
  ghost function MarshalView(sha: Sha, v: View): seq<byte>
    requires v.Masks() && v.shift <= 32
  {
    AlignedEncodable(v);
    Marshal(sha, 64 - v.shift, Listing(Aligned(v.members, v.shift)))
  }

  lemma {:induction false} AlignedEncodable(v: View)
    requires v.Masks() && v.shift <= 32
    ensures Encodable(64 - v.shift, Listing(Aligned(v.members, v.shift)))
  {
    hide Pow2, Prefixes.Masked, Listing;
    var w := 64 - v.shift;
    var values := Listing(Aligned(v.members, v.shift));
    forall i | 0 <= i < |values|
      ensures 0 <= values[i] <= PrefixLimit(w)
    {
      assert values[i] in Elements(values);
      var k: u64 :| k in v.members && Align(k, v.shift) == values[i];
      AlignedBound(k, v.shift);
    }
    StrictAscending(-1, values);
  }

  lemma {:induction false} AlignedBound(k: u64, shift: nat)
    requires shift <= 64
    ensures Align(k, shift) < Pow2(64 - shift)
  {
    hide Pow2;
    var p, t := Pow2(shift), Pow2(64 - shift);
    Pow2Word();
    Pow2Add(64 - shift, shift);
    DivLe(k, p);
    if k / p >= t { MulLe(t, k / p, p); }
  }

  /** The blob of a key set parses back to that key set. */
  lemma {:induction false} ViewRoundTrip(sha: Sha, v: View)
    requires v.Masks() && v.shift <= 32 && |v.members| < WORD
    ensures Accepted(sha, MarshalView(sha, v)) && KeysOf(sha, MarshalView(sha, v)) == v
  {
    hide Marshal, ParseBlob, Listing, Prefixes.Masked, Pow2, Encodable, ShiftAll, Aligned;
    var values := Listing(Aligned(v.members, v.shift));
    AlignedEncodable(v);
    AlignedSize(v.members, v.shift);
    StrictSize(values);
    MarshalParses(sha, 64 - v.shift, values);
    ShiftedBack(v, values);
  }

  lemma AlignedAdd(members: set<int>, k: int, shift: nat)
    ensures Aligned(members + {k}, shift) ==
            Aligned(members, shift) + (if 0 <= k < WORD then {Align(k, shift)} else {})
  {
    hide Align;
  }

  lemma {:induction false} AlignedSize(members: set<int>, shift: nat)
    ensures |Aligned(members, shift)| <= |members|
    decreases |members|
  {
    hide Align;
    if members == {} {
      assert Aligned(members, shift) == {};
    } else {
      HasElement(members);
      var k :| k in members;
      AlignedSize(members - {k}, shift);
      AlignedAdd(members - {k}, k, shift);
      assert members - {k} + {k} == members;
    }
  }

  lemma {:induction false} ShiftedBack(v: View, values: seq<int>)
    requires v.Masks() && v.shift <= 64 && Elements(values) == Aligned(v.members, v.shift)
    ensures Elements(ShiftAll(values, v.shift)) == v.members
  {
    hide Pow2, Prefixes.Masked;
    var keys := ShiftAll(values, v.shift);
    forall k: u64 | k in v.members
      ensures ShiftUp(Align(k, v.shift), v.shift) == k
    {
      UpAgain(k, v.shift);
    }
    forall i | 0 <= i < |keys|
      ensures keys[i] in v.members
    {
      assert values[i] in Elements(values);
    }
    forall k: u64 | k in v.members
      ensures k in Elements(keys)
    {
      assert Align(k, v.shift) in Elements(values);
      var i :| 0 <= i < |values| && values[i] == Align(k, v.shift);
      assert keys[i] in keys;
    }
  }

  lemma UpAgain(k: u64, shift: nat)
    requires Prefixes.Masked(k, shift) == k
    ensures ShiftUp(Align(k, shift), shift) == k
  {
  }
}
