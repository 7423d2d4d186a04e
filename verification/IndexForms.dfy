/**
 The forms /_index is served in, and what each one decodes to: v1, fixed-size entries of the
 first bytes of each hash, and v2, Rice-coded prefixes.
 */
module IndexForms {
  import opened Words
  import opened Sorted
  import opened Prefixes
  import opened HashLists
  import opened Gbci
  import opened IndexV2
  import opened IndexV2Codec

  const HASH_SIZE := 32
  const PREFIX_SIZE := 8
  const VERSION1 := 1

  datatype Form = V1(widthBytes: nat) | V2(widthBits: nat)

  /** The forms a request can name. */
  predicate Served(form: Form) {
    match form
    case V1(w) => w == HASH_SIZE || w == PREFIX_SIZE
    case V2(w) => MIN_BITS <= w <= MAX_BITS
  }

  function FormBits(form: Form): (bits: nat)
    requires Served(form)
    ensures bits <= 256
  {
    match form case V1(w) => 8 * w case V2(w) => w
  }

  /** How many low bits of an eight-byte key the form leaves zero. */
  function FormShift(form: Form): (shift: nat)
    requires Served(form)
    ensures shift <= 32
  {
    match form case V1(_) => 0 case V2(w) => 64 - w
  }

  function PutBE(v: nat, n: nat): (r: seq<byte>)
    ensures |r| == n
  {
    if n == 0 then [] else PutBE(v / 256, n - 1) + [v % 256]
  }

  predicate Natural(values: seq<int>) {
    forall i | 0 <= i < |values| :: values[i] >= 0
  }

  function BodyV1(values: seq<int>, width: nat): (r: seq<byte>)
    requires Natural(values)
    ensures |r| == |values| * width
  {
    if values == [] then [] else
    assert |values| * width == (|values| - 1) * width + width;
    BodyV1(values[..|values| - 1], width) + PutBE(values[|values| - 1], width)
  }

  function MarshalV1(sha: Sha, width: byte, values: seq<int>): (blob: seq<byte>)
    requires Natural(values)
  {
    Frame(sha, VERSION1, width, 0, |values|, BodyV1(values, width))
  }

  /** The blob of a set of hashes: a function of the set and the form alone. */
  ghost function Serialize(sha: Sha, hashes: set<Hash>, form: Form): seq<byte>
    requires Served(form)
  {
    ListingEncodable(hashes, form);
    var values := Listing(Tops(hashes, FormBits(form)));
    match form
    case V1(w) => MarshalV1(sha, w, values)
    case V2(w) => Marshal(sha, w, values)
  }

  /** Prefixes of hashes are what the forms can carry. */
  lemma {:induction false} ListingEncodable(hashes: set<Hash>, form: Form)
    requires Served(form)
    ensures var values := Listing(Tops(hashes, FormBits(form)));
            && Natural(values)
            && (form.V2? ==> Encodable(form.widthBits, values))
  {
    hide Pow2, Listing;
    var bits := FormBits(form);
    var values := Listing(Tops(hashes, bits));
    forall i | 0 <= i < |values|
      ensures 0 <= values[i] <= PrefixLimit(bits)
    {
      assert values[i] in Elements(values);
      var h: Hash :| h in hashes && Top(h, bits) == values[i];
      TopBound(h, bits);
    }
    StrictAscending(-1, values);
  }

  lemma {:induction false} StrictAscending(prev: int, values: seq<int>)
    requires Strict(values) && (values == [] || prev < values[0])
    ensures Ascending(prev, values)
    decreases |values|
  {
    if values != [] { StrictAscending(values[0], values[1..]); }
  }

  /** The server's marshalForm. */
  method MarshalForm(sha: Sha, hashes: seq<Hash>, form: Form) returns (blob: seq<byte>)
    requires Strict(hashes) && Served(form)
    ensures blob == Serialize(sha, Elements(hashes), form)
  {
    ListingEncodable(Elements(hashes), form);
    match form {
      case V2(w) =>
        var values := PrefixValues(hashes, [], w);
        assert Elements(hashes) + Elements([]) == Elements(hashes);
        StrictUnique(values, Listing(Tops(Elements(hashes), w)));
        blob := MarshalGBCI2(sha, w, values);
      case V1(w) =>
        blob := MarshalGBCIWidth(sha, hashes, w);
    }
  }

  /** values are the ascending prefixes of the first i hashes, the last one that of hash i - 1. */
  ghost predicate Collected(hashes: seq<Hash>, i: nat, values: seq<nat>, bits: nat)
    requires i <= |hashes| && bits <= 256
  {
    && Strict(values) && Elements(values) == Tops(Elements(hashes[..i]), bits)
    && (values == [] <==> i == 0)
    && (i > 0 ==> values[|values| - 1] == Top(hashes[i - 1], bits))
  }

  lemma {:induction false} Collect(hashes: seq<Hash>, i: nat, values: seq<nat>, bits: nat)
    requires Strict(hashes) && i < |hashes| && bits <= 256 && Collected(hashes, i, values, bits)
    ensures var v := Top(hashes[i], bits);
            if i > 0 && v == Top(hashes[i - 1], bits) then Collected(hashes, i + 1, values, bits)
            else Collected(hashes, i + 1, values + [v], bits)
  {
    hide Top;
    var v := Top(hashes[i], bits);
    TakeNext(hashes, i);
    TopsAdd(Elements(hashes[..i]), hashes[i], bits);
    if i > 0 {
      TopMono(hashes[i - 1], hashes[i], bits);
      assert values[|values| - 1] in Elements(values);
    }
    if i == 0 || v != Top(hashes[i - 1], bits) { StrictSnoc(values, v); }
  }

  /** Hashes that share their first width bytes are written once. */
  method MarshalGBCIWidth(sha: Sha, hashes: seq<Hash>, width: nat) returns (blob: seq<byte>)
    requires Strict(hashes) && Served(V1(width))
    ensures blob == Serialize(sha, Elements(hashes), V1(width))
  {
    hide Listing, Top, BodyV1, PutBE, Collected, Strict;
    ghost var values: seq<nat> := [];
    var body: seq<byte> := [];
    var count := 0;
    EmptyBody(hashes, width);
    var i := 0;
    while i < |hashes|
      invariant 0 <= i <= |hashes| && count == |values| && (values == [] <==> i == 0)
      invariant Collected(hashes, i, values, 8 * width) && body == BodyV1(values, width)
    {
      var entry := PutBE(Top(hashes[i], 8 * width), width);
      Collect(hashes, i, values, 8 * width);
      EntryDecides(hashes, i, values, width);
      if |body| > 0 && body[|body| - width..] == entry {
      } else {
        BodySnoc(values, Top(hashes[i], 8 * width), width);
        values := values + [Top(hashes[i], 8 * width)];
        body, count := body + entry, count + 1;
      }
      i := i + 1;
    }
    CollectedAll(hashes, values, width);
    blob := Frame(sha, VERSION1, width, 0, count, body);
  }

  lemma {:induction false} CollectedAll(hashes: seq<Hash>, values: seq<nat>, width: nat)
    requires Served(V1(width)) && Collected(hashes, |hashes|, values, 8 * width)
    ensures values == Listing(Tops(Elements(hashes), 8 * width))
  {
    hide Listing, Top;
    assert hashes[..|hashes|] == hashes;
    StrictUnique(values, Listing(Tops(Elements(hashes), 8 * width)));
  }

  lemma EmptyBody(hashes: seq<Hash>, width: nat)
    requires 8 * width <= 256
    ensures BodyV1([], width) == [] && Collected(hashes, 0, [], 8 * width)
  {
  }

  lemma BodySnoc(values: seq<nat>, v: nat, width: nat)
    ensures BodyV1(values + [v], width) == BodyV1(values, width) + PutBE(v, width)
  {
    assert (values + [v])[..|values|] == values;
  }

  /** The last entry written equals the next one, as bytes, exactly when the prefixes are equal. */
  lemma {:induction false} EntryDecides(hashes: seq<Hash>, i: nat, values: seq<nat>, width: nat)
    requires i < |hashes| && 0 < width <= 32 && Collected(hashes, i, values, 8 * width)
    ensures var body, v := BodyV1(values, width), Top(hashes[i], 8 * width);
            && (i == 0 <==> |body| == 0)
            && (i > 0 ==>
                  |body| >= width && (body[|body| - width..] == PutBE(v, width) <==> v == Top(hashes[i - 1], 8 * width)))
  {
    hide PutBE, Top, Strict;
    if i > 0 {
      var n := |values| - 1;
      assert values == values[..n] + [values[n]];
      BodySnoc(values[..n], values[n], width);
      TopBound(hashes[i], 8 * width);
      TopBound(hashes[i - 1], 8 * width);
      GetPutBE(Top(hashes[i], 8 * width), width);
      GetPutBE(Top(hashes[i - 1], 8 * width), width);
    }
  }

  lemma {:induction false} GetPutBE(v: nat, n: nat)
    requires v < Pow2(8 * n)
    ensures GetBE(PutBE(v, n)) == v
  {
    if n > 0 {
      BytePower(n - 1);
      GetPutBE(v / 256, n - 1);
      assert PutBE(v, n)[..n - 1] == PutBE(v / 256, n - 1);
    }
  }

  datatype BlobError = BlobTooSmall | BlobBadMagic | BlobBadVersion | BadHashSize | LengthMismatch
    | TrailerWrong | BadV2(e: ParseError)

  /** The keys of a blob, as it lists them, and the bits they leave zero. */
  datatype BlobKeys = Keys(keys: seq<u64>, shift: nat) | NotABlob(error: BlobError)

  /** The leading eight bytes of each entry. */
  function ReadEntries(body: seq<byte>, size: nat): (keys: seq<u64>)
    requires size >= PREFIX_SIZE && |body| % size == 0
  {
    if body == [] then [] else
    EntryBounds(|body|, size);
    var n := |body| - size;
    ReadEntries(body[..n], size) + [Word(body[n..n + 8])]
  }

  function Word(s: seq<byte>): u64
    requires |s| == 8
  {
    GetBEHead(s);
    Pow2Word();
    GetBE(s)
  }

  lemma EntryBounds(len: nat, size: nat)
    requires size > 0 && len > 0 && len % size == 0
    ensures len >= size && (len - size) % size == 0
  {
    var q := len / size;
    assert len == size * q;
    assert q >= 1;
    assert len - size == (q - 1) * size + 0;
    DivModUnique(len - size, size, q - 1, 0);
  }

  function ParseV1(sha: Sha, blob: seq<byte>): BlobKeys
    requires LongEnough(blob)
  {
    var size := blob[5];
    var bodyLen := |blob| - HEADER_SIZE - TRAILER_SIZE;
    if size != HASH_SIZE && size != PREFIX_SIZE then NotABlob(BadHashSize)
    else if bodyLen % size != 0 || Count(blob) != bodyLen / size then NotABlob(LengthMismatch)
    else if !TrailerHolds(sha, blob) then NotABlob(TrailerWrong)
    else Keys(ReadEntries(Body(blob), size), 0)
  }

  /** A right-aligned prefix as the key it stands for. */
  function ShiftUp(v: int, shift: nat): u64 {
    v * Pow2(shift) % WORD
  }

  function ShiftAll(values: seq<int>, shift: nat): (keys: seq<u64>)
    ensures |keys| == |values| && forall i | 0 <= i < |keys| :: keys[i] == ShiftUp(values[i], shift)
  {
    seq(|values|, i requires 0 <= i < |values| => ShiftUp(values[i], shift))
  }

  function ParseBlob(sha: Sha, blob: seq<byte>): BlobKeys {
    if !LongEnough(blob) then NotABlob(BlobTooSmall)
    else if blob[..4] != MAGIC then NotABlob(BlobBadMagic)
    else if blob[4] == VERSION1 then ParseV1(sha, blob)
    else if blob[4] == VERSION then
      match Parse(sha, blob)
      case Rejected(e) => NotABlob(BadV2(e))
      case Parsed(values, w) => if w <= 64 then Keys(ShiftAll(values, 64 - w), 64 - w) else NotABlob(BadV2(BadWidth))
    else NotABlob(BlobBadVersion)
  }

  lemma {:induction false} EntriesRead(values: seq<nat>, width: nat)
    requires PREFIX_SIZE <= width && forall i | 0 <= i < |values| :: values[i] < Pow2(8 * width)
    ensures |BodyV1(values, width)| % width == 0
    ensures var keys := ReadEntries(BodyV1(values, width), width);
            |keys| == |values| && forall i | 0 <= i < |keys| :: keys[i] == values[i] / Pow2(8 * width - 64)
  {
    hide PutBE, Pow2, GetBE;
    var body := BodyV1(values, width);
    assert |body| % width == 0 by { DivModUnique(|body|, width, |values|, 0); }
    if values != [] {
      var n := |values| - 1;
      EntriesRead(values[..n], width);
      BodySnoc(values[..n], values[n], width);
      assert values == values[..n] + [values[n]];
      hide BodyV1;
      var m := |body| - width;
      assert body[..m] == BodyV1(values[..n], width);
      assert body[m..m + 8] == PutBE(values[n], width)[..8];
      LeadingBytes(values[n], width, 8);
    }
  }

  /** The first m of n big-endian bytes write the number without its low bytes. */
  lemma {:induction false} LeadingBytes(v: nat, n: nat, m: nat)
    requires m <= n && v < Pow2(8 * n)
    ensures GetBE(PutBE(v, n)[..m]) == v / Pow2(8 * n - 8 * m)
  {
    if n == m {
      assert PutBE(v, n)[..m] == PutBE(v, n);
      GetPutBE(v, n);
    } else {
      BytePower(n - 1);
      LeadingBytes(v / 256, n - 1, m);
      assert PutBE(v, n)[..m] == PutBE(v / 256, n - 1)[..m];
      BytePower(n - 1 - m);
      assert 8 * (n - 1) - 8 * m == 8 * (n - 1 - m) && 8 * n - 8 * m == 8 * (n - m);
      DivDiv(v, 256, Pow2(8 * (n - 1 - m)));
    }
  }

  /**
   A blob of a set of hashes decodes to the keys of exactly that set, at the width of its form.
   */
  lemma {:induction false} Decodes(sha: Sha, hashes: set<Hash>, form: Form)
    requires Served(form) && |hashes| < WORD
    ensures var d := ParseBlob(sha, Serialize(sha, hashes, form));
            d.Keys? && d.shift == FormShift(form) && Elements(d.keys) == KeysAt(hashes, d.shift)
  {
    hide Listing, Marshal, Parse, MarshalV1, ReadEntries, Top, Pow2;
    var bits := FormBits(form);
    var values := Listing(Tops(hashes, bits));
    ListingEncodable(hashes, form);
    ListingSize(hashes, bits);
    match form
    case V2(w) => DecodesV2(sha, hashes, w);
    case V1(w) => DecodesV1(sha, hashes, w);
  }

  lemma {:induction false} ListingSize(hashes: set<Hash>, bits: nat)
    requires bits <= 256
    ensures |Listing(Tops(hashes, bits))| <= |hashes|
  {
    hide Listing, Top;
    StrictSize(Listing(Tops(hashes, bits)));
    TopsSize(hashes, bits);
  }

  lemma {:induction false} TopsSize(hashes: set<Hash>, bits: nat)
    requires bits <= 256
    ensures |Tops(hashes, bits)| <= |hashes|
    decreases |hashes|
  {
    hide Top;
    if hashes != {} {
      var h :| h in hashes;
      TopsSize(hashes - {h}, bits);
      TopsAdd(hashes - {h}, h, bits);
      assert hashes - {h} + {h} == hashes;
    } else {
      assert Tops(hashes, bits) == {};
    }
  }

  /** A v2 blob written from values is read as their keys. */
  lemma {:induction false} MarshalParses(sha: Sha, w: nat, values: seq<int>)
    requires Encodable(w, values) && |values| < WORD
    ensures ParseBlob(sha, Marshal(sha, w, values)) == Keys(ShiftAll(values, 64 - w), 64 - w)
  {
    hide Marshal, Parse, ParseV1, ShiftAll, LongEnough, Ascending, Pow2;
    RoundTrip(sha, w, values);
    ParsedIsV2(sha, Marshal(sha, w, values));
  }

  lemma {:induction false} DecodesV2(sha: Sha, hashes: set<Hash>, w: nat)
    requires Served(V2(w)) && |hashes| < WORD
    ensures ParseBlob(sha, Serialize(sha, hashes, V2(w))).Keys?
    ensures var d := ParseBlob(sha, Serialize(sha, hashes, V2(w)));
            d.shift == 64 - w && Elements(d.keys) == KeysAt(hashes, 64 - w)
  {
    hide Listing, Marshal, ParseBlob, Top, Pow2, Encodable, ShiftAll;
    var values := Listing(Tops(hashes, w));
    ListingEncodable(hashes, V2(w));
    ListingSize(hashes, w);
    MarshalParses(sha, w, values);
    ShiftedTops(hashes, w, values);
  }

  lemma ParsedIsV2(sha: Sha, blob: seq<byte>)
    requires Parse(sha, blob).Parsed?
    ensures LongEnough(blob) && blob[..4] == MAGIC && blob[4] == VERSION
  {
  }

  lemma {:induction false} ShiftedTops(hashes: set<Hash>, w: nat, values: seq<int>)
    requires w <= 64 && Elements(values) == Tops(hashes, w)
    ensures Elements(ShiftAll(values, 64 - w)) == KeysAt(hashes, 64 - w)
  {
    hide Top, Pow2, KeyAt;
    var keys := ShiftAll(values, 64 - w);
    forall h: Hash
      ensures ShiftUp(Top(h, w), 64 - w) == KeyAt(h, 64 - w)
    {
      KeyFromTop(h, w);
    }
    forall i | 0 <= i < |keys|
      ensures keys[i] in KeysAt(hashes, 64 - w)
    {
      assert values[i] in Elements(values);
    }
    forall h: Hash | h in hashes
      ensures KeyAt(h, 64 - w) in Elements(keys)
    {
      assert Top(h, w) in Elements(values);
      var i :| 0 <= i < |values| && values[i] == Top(h, w);
      assert keys[i] in keys;
    }
  }

  lemma {:induction false} DecodesV1(sha: Sha, hashes: set<Hash>, w: nat)
    requires Served(V1(w)) && |hashes| < WORD
    ensures ParseBlob(sha, Serialize(sha, hashes, V1(w))).Keys?
    ensures var d := ParseBlob(sha, Serialize(sha, hashes, V1(w)));
            d.shift == 0 && Elements(d.keys) == KeysAt(hashes, 0)
  {
    hide Listing, Top, Pow2, ReadEntries, BodyV1, Frame, TrailerHolds, Count;
    var values := Listing(Tops(hashes, 8 * w));
    ListingEncodable(hashes, V1(w));
    ListingSize(hashes, 8 * w);
    var body := BodyV1(values, w);
    FrameFields(sha, VERSION1, w, 0, |values|, body);
    DivModUnique(|body|, w, |values|, 0);
    ReadTops(hashes, w, values);
  }

  lemma {:induction false} ReadTops(hashes: set<Hash>, w: nat, values: seq<nat>)
    requires Served(V1(w)) && Elements(values) == Tops(hashes, 8 * w)
    ensures |BodyV1(values, w)| % w == 0 && Elements(ReadEntries(BodyV1(values, w), w)) == KeysAt(hashes, 0)
  {
    hide Top, Pow2, KeyAt, BodyV1, ReadEntries;
    forall i | 0 <= i < |values|
      ensures values[i] < Pow2(8 * w)
    {
      assert values[i] in Elements(values);
      var h: Hash :| h in hashes && Top(h, 8 * w) == values[i];
      TopBound(h, 8 * w);
    }
    EntriesRead(values, w);
    var keys := ReadEntries(BodyV1(values, w), w);
    forall h: Hash
      ensures Top(h, 8 * w) / Pow2(8 * w - 64) == KeyAt(h, 0)
    {
      WholeKey(h, w);
    }
    forall i | 0 <= i < |keys|
      ensures keys[i] in KeysAt(hashes, 0)
    {
      assert values[i] in Elements(values);
    }
    forall h: Hash | h in hashes
      ensures KeyAt(h, 0) in Elements(keys)
    {
      assert Top(h, 8 * w) in Elements(values);
      var i :| 0 <= i < |values| && values[i] == Top(h, 8 * w);
      assert keys[i] in keys;
    }
  }

  lemma {:induction false} WholeKey(h: Hash, w: nat)
    requires 8 <= w <= 32
    ensures Top(h, 8 * w) / Pow2(8 * w - 64) == KeyAt(h, 0)
  {
    hide Top;
    TopOfTop(h, 8 * w, 64);
    assert Key64(h) / 1 * 1 == Key64(h);
  }

  /** The client's parseIndexBlob, on arbitrary bytes. */
  method ParseIndexBlob(sha: Sha, blob: seq<byte>) returns (r: BlobKeys)
    requires |blob| < MAX_BLOB
    ensures r == ParseBlob(sha, blob)
  {
    hide Parse, ReadEntries, Pow2, GetLE;
    if |blob| < HEADER_SIZE + TRAILER_SIZE { return NotABlob(BlobTooSmall); }
    if blob[..4] != MAGIC { return NotABlob(BlobBadMagic); }
    if blob[4] == VERSION1 {
      r := ParseIndexV1(sha, blob);
      return;
    }
    if blob[4] != VERSION { return NotABlob(BlobBadVersion); }
    var parsed := ParseIndexV2(sha, blob);
    match parsed
    case Rejected(e) => return NotABlob(BadV2(e));
    case Parsed(values, w) =>
      if w > 64 { return NotABlob(BadV2(BadWidth)); }
      var keys: seq<u64> := [];
      for i := 0 to |values|
        invariant |keys| == i && forall j | 0 <= j < i :: keys[j] == ShiftUp(values[j], 64 - w)
      {
        keys := keys + [ShiftUp(values[i], 64 - w)];
      }
      assert keys == ShiftAll(values, 64 - w);
      return Keys(keys, 64 - w);
  }

  method ParseIndexV1(sha: Sha, blob: seq<byte>) returns (r: BlobKeys)
    requires LongEnough(blob)
    ensures r == ParseV1(sha, blob)
  {
    hide ReadEntries, Pow2, GetLE, GetBE, Count;
    var size: nat := blob[5];
    if size != HASH_SIZE && size != PREFIX_SIZE { return NotABlob(BadHashSize); }
    var count := Count(blob);
    var bodyLen := |blob| - HEADER_SIZE - TRAILER_SIZE;
    if bodyLen % size != 0 || count != bodyLen / size { return NotABlob(LengthMismatch); }
    var bodyEnd := HEADER_SIZE + bodyLen;
    if sha(blob[..bodyEnd]) != blob[bodyEnd..] { return NotABlob(TrailerWrong); }
    WholeEntries(bodyLen, size, count);
    var keys := EntryKeys(blob[HEADER_SIZE..bodyEnd], size, count);
    return Keys(keys, 0);
  }

  method EntryKeys(body: seq<byte>, size: nat, count: nat) returns (keys: seq<u64>)
    requires size >= PREFIX_SIZE && |body| == count * size && |body| % size == 0
    ensures keys == ReadEntries(body, size)
  {
    hide ReadEntries, Word;
    keys := [];
    var off := 0;
    NoEntries(body, size);
    var i := 0;
    while i < count
      invariant 0 <= i <= count && off == i * size <= |body| && off % size == 0
      invariant keys == ReadEntries(body[..off], size)
    {
      EntryRoom(i, count, size);
      EntriesSnoc(body, off, size);
      keys := keys + [Word(body[off..off + PREFIX_SIZE])];
      off, i := off + size, i + 1;
    }
    assert body[..off] == body;
  }

  lemma WholeEntries(len: nat, size: nat, count: nat)
    requires size > 0 && len % size == 0 && count == len / size
    ensures len == count * size
  {
  }

  lemma NoEntries(body: seq<byte>, size: nat)
    requires size >= PREFIX_SIZE
    ensures 0 % size == 0 && ReadEntries(body[..0], size) == []
  {
    DivModUnique(0, size, 0, 0);
  }

  lemma EntryRoom(i: nat, count: nat, size: nat)
    requires i < count && size > 0
    ensures i * size + size == (i + 1) * size <= count * size && (i + 1) * size % size == 0
  {
    MulLe(i + 1, count, size);
    DivModUnique((i + 1) * size, size, i + 1, 0);
  }

  lemma EntriesSnoc(body: seq<byte>, off: nat, size: nat)
    requires size >= PREFIX_SIZE && off + size <= |body| && off % size == 0 && (off + size) % size == 0
    ensures ReadEntries(body[..off + size], size) == ReadEntries(body[..off], size) + [Word(body[off..off + PREFIX_SIZE])]
  {
    var front := body[..off + size];
    assert front[..off] == body[..off] && front[off..off + 8] == body[off..off + 8];
  }
}
