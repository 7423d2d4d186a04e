/**
 Rewriting the disk copy: the blob of a live key set, and a copy merged with a delta.
 */
module MergeBlobs {
  import opened Words
  import opened Sorted
  import opened Prefixes
  import Gbci
  import opened IndexV2
  import opened IndexV2Codec
  import opened IndexForms
  import opened SortedSet
  import opened KeySet
  import opened ClientBlobs

  datatype Merged = MergedBlob(blob: seq<byte>) | BadCopy(error: BlobError)

  /** Masked keys keep their order and stay apart when the clear bits are shifted out. */
  lemma {:induction false} AlignMono(a: u64, b: u64, shift: nat)
    requires a < b && Masked(a, shift) == a && Masked(b, shift) == b
    ensures Align(a, shift) < Align(b, shift)
  {
    hide Masked, ShiftUp, Pow2;
    UpAgain(a, shift);
    UpAgain(b, shift);
    ShrMono(a, b, shift);
  }

  lemma ShrMono(a: u64, b: u64, shift: nat)
    requires a <= b
    ensures Align(a, shift) <= Align(b, shift)
  {
    hide Pow2;
    var p := Pow2(shift);
    if a / p > b / p { MulLe(b / p + 1, a / p, p); }
  }

  lemma {:induction false} AlignedList(sorted: seq<int>, values: seq<int>, v: View)
    requires v.Masks() && Strict(sorted) && Elements(sorted) == v.members && |values| == |sorted|
    requires forall i | 0 <= i < |sorted| :: 0 <= sorted[i] < WORD && values[i] == Align(sorted[i], v.shift)
    ensures values == Listing(Aligned(v.members, v.shift))
  {
    hide Masked, Align, Listing;
    forall i | 0 <= i < |sorted|
      ensures Masked(sorted[i], v.shift) == sorted[i]
    {
      assert sorted[i] in Elements(sorted);
    }
    forall i, j | 0 <= i < j < |values|
      ensures values[i] < values[j]
    {
      AlignMono(sorted[i], sorted[j], v.shift);
    }
    forall x | x in Aligned(v.members, v.shift)
      ensures x in Elements(values)
    {
      var k: u64 :| k in v.members && Align(k, v.shift) == x;
      var i :| 0 <= i < |sorted| && sorted[i] == k;
      assert values[i] in values;
    }
    forall x | x in Elements(values)
      ensures x in Aligned(v.members, v.shift)
    {
      var i :| 0 <= i < |values| && values[i] == x;
      assert sorted[i] in Elements(sorted);
    }
    StrictUnique(values, Listing(Aligned(v.members, v.shift)));
  }

  /** The keys of a set, ascending. */
  method SortedAll(keys: KeySet) returns (sorted: seq<int>)
    requires keys.Valid()
    ensures Strict(sorted) && Elements(sorted) == keys.Value().members
    ensures forall i | 0 <= i < |sorted| :: 0 <= sorted[i] < WORD
  {
    hide Masked, Strict, Weak, HashSet.Contents, HashSet.Shape;
    var list := keys.keys.All();
    sorted := Sort(list);
    assert Elements(sorted) == Elements(list);
    WeakDistinct(sorted);
    InRange(sorted);
  }

  /** marshalIndex. */
  method MarshalIndex(sha: Gbci.Sha, keys: KeySet) returns (blob: seq<byte>)
    requires keys.Valid() && keys.shift <= 32
    ensures blob == MarshalView(sha, keys.Value())
  {
    hide Masked, Strict, HashSet.Valid, HashSet.Contents, HashSet.Shape, Marshal, Encodable, Align, Aligned;
    hide Elements, Listing;
    ghost var v := keys.Value();
    var sorted := SortedAll(keys);
    var values: seq<u64> := [];
    for i := 0 to |sorted|
      invariant |values| == i && forall k | 0 <= k < i :: values[k] == Align(sorted[k], v.shift)
    {
      AlignWord(sorted[i], v.shift);
      values := values + [Shr(sorted[i], keys.shift)];
    }
    AlignedList(sorted, values, v);
    AlignedEncodable(v);
    var ok;
    ok, blob := MarshalIndexV2(sha, 64 - keys.shift, values);
  }

  lemma AlignWord(k: u64, shift: nat)
    ensures Align(k, shift) < WORD && Align(k, shift) == Shr(k, shift)
  {
  }

  /** mergeIndexBlob: the copy and the delta, at the narrower of their widths. */
  method MergeIndexBlob(sha: Gbci.Sha, base: seq<byte>, added: KeySet) returns (r: Merged)
    requires |base| < MAX_BLOB && added.Valid() && added.shift <= 32
    ensures r.MergedBlob? <==> Accepted(sha, base)
    ensures r.MergedBlob? ==>
              var all := KeysOf(sha, base).PlusAll(added.Value());
              all.Masks() && all.shift <= 32 && r.blob == MarshalView(sha, all)
    ensures r.BadCopy? ==> ParseBlob(sha, base) == NotABlob(r.error)
  {
    hide ParseBlob, HashSet.Valid, HashSet.Contents, HashSet.Shape, View.Masks, Narrowed, MarshalView;
    var parsed := ParseIndexBlob(sha, base);
    if parsed.NotABlob? { return BadCopy(parsed.error); }
    KeysOfMasks(sha, base);
    var keys := new KeySet(parsed.keys, 64 - parsed.shift);
    keys.AddAll(added);
    var blob := MarshalIndex(sha, keys);
    r := MergedBlob(blob);
  }
}
