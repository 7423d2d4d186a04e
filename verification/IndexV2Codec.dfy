/**
 The code that writes and reads v2 blobs, on 64-bit words, proved against the bit-string
 specification of module IndexV2.
 */
module IndexV2Codec {
  import opened Words
  import opened Bits
  import opened BitIO
  import opened Gbci
  import opened IndexV2

  /** Below this many values, or bytes, a count of bits fits a word. */
  const MAX_VALUES := 0x200_0000_0000_0000
  const MAX_BLOB := 0x2000_0000_0000_0000

  function Last(prev: int, values: seq<int>): int {
    if values == [] then prev else values[|values| - 1]
  }

  /** The last value of a prefix is below the next one. */
  lemma {:induction false} AscendingAt(prev: int, values: seq<int>, i: nat)
    requires Ascending(prev, values) && i < |values|
    ensures Ascending(prev, values[..i]) && prev <= Last(prev, values[..i]) < values[i]
    decreases i
  {
    if i > 0 {
      AscendingAt(values[0], values[1..], i - 1);
      assert values[..i][1..] == values[1..][..i - 1];
    }
  }

  /** Writing one more value appends its gap. */
  lemma {:induction false} RiceSnoc(k: nat, prev: int, values: seq<int>, v: int)
    requires prev >= -1 && Ascending(prev, values) && -1 <= Last(prev, values) < v
    ensures Ascending(prev, values + [v])
    ensures RiceBits(k, prev, values + [v]) == RiceBits(k, prev, values) + GapBits(v - Last(prev, values) - 1, k)
    decreases |values|
  {
    hide GapBits;
    var all := values + [v];
    if values == [] {
      assert all[0] == v && all[1..] == [];
      assert RiceBits(k, v, []) == [];
    } else {
      var tail := values[1..];
      assert all[0] == values[0] && all[1..] == tail + [v];
      assert Last(values[0], tail) == Last(prev, values);
      RiceSnoc(k, values[0], tail, v);
    }
  }

  /** The quotient in unary and the masked remainder are the gap's bits. */
  lemma {:induction false} GapWritten(g: u64, k: nat)
    requires k <= 63
    ensures Shl(1, k) >= 1 && 0 <= And(g, Shl(1, k) - 1) < WORD
    ensures Ones(Shr(g, k)) + [false] + ToBits(And(g, Shl(1, k) - 1), k) == GapBits(g, k)
  {
    hide ToBits, Ones;
    OneShifted(k);
    AndMask(g, k);
    assert And(g, Pow2(k) - 1) < WORD by { Pow2Word(); Pow2Mono(k, 64); }
    BitsMod(g, k, k);
  }

  lemma {:induction false} OneShifted(k: nat)
    requires k <= 63
    ensures Shl(1, k) == Pow2(k)
  {
    Pow2Word();
    Pow2Mono(k, 63);
    assert Pow2(64) == 2 * Pow2(63);
  }

  /** A flushed buffer is its leading bytes and then the body's bytes. */
  lemma {:induction false} FlushedBody(head: seq<byte>, bits: seq<bool>, out: seq<byte>)
    requires BytesBits(out) == Padded(BytesBits(head) + bits)
    ensures |out| >= |head| && out[|head|..] == Pack(Padded(bits))
  {
    hide BytesBits, Pack;
    var n := |head|;
    assert |BytesBits(head) + bits| % 8 == |bits| % 8;
    assert Padded(BytesBits(head) + bits) == BytesBits(head) + Padded(bits);
    assert out == out[..n] + out[n..];
    BytesBitsConcat(out[..n], out[n..]);
    assert BytesBits(out[n..]) == BytesBits(out)[8 * n..] == Padded(bits);
    PackOfBits(out[n..]);
  }

  /** The gap before value i. */
  function GapAt(values: seq<int>, i: nat): int
    requires i < |values|
  {
    if i > 0 then values[i] - values[i - 1] - 1 else values[i]
  }

  lemma RiceEmpty(k: nat, values: seq<int>)
    ensures Ascending(-1, values[..0]) && RiceBits(k, -1, values[..0]) == []
  {
  }

  lemma {:induction false} RiceStep(k: nat, values: seq<int>, i: nat)
    requires Ascending(-1, values) && i < |values|
    ensures Ascending(-1, values[..i]) && Ascending(-1, values[..i + 1]) && GapAt(values, i) >= 0
    ensures RiceBits(k, -1, values[..i + 1]) == RiceBits(k, -1, values[..i]) + GapBits(GapAt(values, i), k)
  {
    hide RiceBits, GapBits, Ascending;
    AscendingAt(-1, values, i);
    RiceSnoc(k, -1, values[..i], values[i]);
    assert values[..i] + [values[i]] == values[..i + 1];
  }

  method WriteGap(w: BitWriter, k: nat, g: u64)
    requires w.Valid() && k <= 63
    modifies w
    ensures w.Valid() && w.Contents() == old(w.Contents()) + GapBits(g, k)
  {
    hide GapBits, BytesBits, ToBits, Ones, Pow2, Shl, Shr, And, BitWriter.Contents;
    GapWritten(g, k);
    w.WriteUnary(Shr(g, k));
    w.WriteBits(And(g, Shl(1, k) - 1), k);
  }

  method WriteGaps(w: BitWriter, k: nat, values: seq<u64>)
    requires w.Valid() && k <= 63 && Ascending(-1, values)
    modifies w
    ensures w.Valid() && w.Contents() == old(w.Contents()) + RiceBits(k, -1, values)
  {
    hide RiceBits, GapBits, Ascending, BitWriter.Contents;
    RiceEmpty(k, values);
    var prev: u64 := 0;
    var i := 0;
    while i < |values|
      invariant 0 <= i <= |values| && w.Valid()
      invariant i > 0 ==> prev == values[i - 1]
      invariant Ascending(-1, values[..i])
      invariant w.Contents() == old(w.Contents()) + RiceBits(k, -1, values[..i])
    {
      RiceStep(k, values, i);
      var g: u64 := values[i];
      if i > 0 { g := values[i] - prev - 1; }
      WriteGap(w, k, g);
      prev, i := values[i], i + 1;
    }
    assert values[..i] == values;
  }

  /** The server's writer. */
  method MarshalGBCI2(sha: Sha, widthBits: nat, values: seq<u64>) returns (blob: seq<byte>)
    requires Encodable(widthBits, values)
    ensures blob == Marshal(sha, widthBits, values)
  {
    hide RiceBits, BytesBits, Ascending, Pack, Padded, BitWriter.Contents;
    var n := |values|;
    var k := RiceParam(widthBits, n);
    var head: seq<byte> := seq(HEADER_SIZE, _ => 0);
    var w := new BitWriter(head);
    WriteGaps(w, k, values);
    blob := w.Flush();
    FlushedBody(head, RiceBits(k, -1, values), blob);
    var body := blob[HEADER_SIZE..];
    blob := MAGIC + [VERSION, widthBits, k, 0] + sha(body)[..8] + PutLE(n, 8) + body;
    blob := blob + sha(blob);
  }

  /** The client's writer. It refuses, where the source panics, exactly what the form cannot carry. */
  method MarshalIndexV2(sha: Sha, widthBits: nat, values: seq<u64>) returns (ok: bool, blob: seq<byte>)
    ensures ok <==> Encodable(widthBits, values)
    ensures ok ==> blob == Marshal(sha, widthBits, values)
  {
    hide Marshal, Pow2;
    if widthBits < MIN_BITS || widthBits > MAX_BITS { return false, []; }
    var limit := PrefixLimit(widthBits);
    var prev: u64 := 0;
    var i := 0;
    while i < |values|
      invariant 0 <= i <= |values|
      invariant i > 0 ==> prev == values[i - 1]
      invariant Ascending(-1, values[..i]) && forall v | v in values[..i] :: v <= limit
    {
      var v := values[i];
      if v > limit || (i > 0 && v <= prev) {
        assert v in values;
        if Ascending(-1, values) { AscendingAt(-1, values, i); }
        return false, [];
      }
      AscendingSnoc(-1, values[..i], v);
      assert values[..i + 1] == values[..i] + [v];
      prev, i := v, i + 1;
    }
    assert values[..i] == values;
    blob := MarshalGBCI2(sha, widthBits, values);
    return true, blob;
  }

  lemma {:induction false} AscendingSnoc(prev: int, values: seq<int>, v: int)
    requires Ascending(prev, values) && Last(prev, values) < v
    ensures Ascending(prev, values + [v])
    decreases |values|
  {
    if values != [] {
      AscendingSnoc(values[0], values[1..], v);
      assert (values + [v])[1..] == values[1..] + [v];
    }
  }

  /** The length of the blob, counted on the gaps with no blob written. */
  method Gbci2Size(sha: Sha, widthBits: nat, values: seq<u64>) returns (size: nat)
    requires Encodable(widthBits, values) && |values| < MAX_VALUES
    ensures size == |Marshal(sha, widthBits, values)|
  {
    hide RiceBits, Ascending, Marshal, RiceParam, Pow2;
    var k := RiceParam(widthBits, |values|);
    BodyLength(widthBits, values);
    MarshalLength(sha, widthBits, values);
    var total := BodyBits(k, values);
    size := HEADER_SIZE + (total + 7) / 8 + TRAILER_SIZE;
  }

  method BodyBits(k: nat, values: seq<u64>) returns (total: u64)
    requires Ascending(-1, values) && |RiceBits(k, -1, values)| < WORD
    ensures total == |RiceBits(k, -1, values)|
  {
    hide RiceBits, Shr, Ascending;
    RiceEmpty(k, values);
    total := 0;
    var prev: u64 := 0;
    var i := 0;
    while i < |values|
      invariant 0 <= i <= |values|
      invariant i > 0 ==> prev == values[i - 1]
      invariant Ascending(-1, values[..i]) && total == |RiceBits(k, -1, values[..i])|
    {
      SizeStep(k, values, i);
      var g: u64 := values[i];
      if i > 0 { g := values[i] - prev - 1; }
      total := (total + Shr(g, k) + k + 1) % WORD;
      prev, i := values[i], i + 1;
    }
    assert values[..i] == values;
  }

  lemma {:induction false} MarshalLength(sha: Sha, widthBits: nat, values: seq<int>)
    requires Encodable(widthBits, values)
    ensures var bits := RiceBits(RiceParam(widthBits, |values|), -1, values);
            |Marshal(sha, widthBits, values)| == HEADER_SIZE + (|bits| + 7) / 8 + TRAILER_SIZE
  {
    hide RiceBits, RiceParam, Ascending, Pow2;
  }

  lemma GapLength(g: u64, k: nat)
    ensures |GapBits(g, k)| == Shr(g, k) + k + 1
  {
  }

  lemma {:induction false} SizeStep(k: nat, values: seq<u64>, i: nat)
    requires Ascending(-1, values) && i < |values|
    ensures Ascending(-1, values[..i]) && Ascending(-1, values[..i + 1]) && 0 <= GapAt(values, i) < WORD
    ensures |RiceBits(k, -1, values[..i])| + Shr(GapAt(values, i), k) + k + 1 == |RiceBits(k, -1, values[..i + 1])|
    ensures |RiceBits(k, -1, values[..i + 1])| <= |RiceBits(k, -1, values)|
  {
    hide RiceBits, GapBits, Ascending;
    RiceStep(k, values, i);
    RicePrefix(k, -1, values, i + 1);
    GapLength(GapAt(values, i), k);
  }

  lemma {:induction false} RicePrefix(k: nat, prev: int, values: seq<int>, i: nat)
    requires prev >= -1 && Ascending(prev, values) && i <= |values|
    ensures Ascending(prev, values[..i]) && |RiceBits(k, prev, values[..i])| <= |RiceBits(k, prev, values)|
    decreases i
  {
    hide GapBits;
    if i > 0 {
      RicePrefix(k, values[0], values[1..], i - 1);
      assert values[..i][1..] == values[1..][..i - 1];
    }
  }

  /** `k > 0 && q>>(64-k) != 0` is the test that q<<k leaves the word. */
  lemma {:induction false} ShiftFits(q: u64, k: nat, low: u64)
    requires k <= 63 && low < Pow2(k)
    ensures (k > 0 && Shr(q, 64 - k) != 0) <==> q * Pow2(k) + low >= WORD
    ensures q * Pow2(k) + low < WORD ==> Or(Shl(q, k), low) == q * Pow2(k) + low
  {
    var p, t := Pow2(k), Pow2(64 - k);
    Pow2Word();
    Pow2Add(64 - k, k);
    ShlIs(q, k);
    if q < t {
      DivModUnique(q, t, 0, q);
      JoinBound(q, low, 64 - k, k);
      OrDisjoint(q, low, k);
    } else {
      MulLe(t, q, p);
      assert q / t >= 1 by { QuotientGe(1, t, q); }
    }
  }

  datatype GapStatus = Read | Ended | TooLarge

  /** One gap, read and put together in a word. */
  method NextGap(reader: BitReader, k: nat) returns (status: GapStatus, g: u64)
    requires reader.Valid() && k <= 63 && |reader.Unread()| < WORD
    modifies reader
    ensures reader.Valid()
    ensures status == Read ==> |reader.Unread()| <= |old(reader.Unread())|
    ensures status == match ReadGap(old(reader.Unread()), k)
                      case NoGap => Ended
                      case Gap(gap, _) => if gap < WORD then Read else TooLarge
    ensures status == Read ==> ReadGap(old(reader.Unread()), k) == Gap(g, reader.Unread())
  {
    hide Pow2, FromBits, LeadingOnes, Shl, Shr, Or, BitReader.Unread;
    ghost var bits := reader.Unread();
    var q, okQ := reader.ReadUnary();
    if !okQ { return Ended, 0; }
    var low, okLow := reader.ReadBits(k);
    if !okLow { return Ended, 0; }
    GapParts(bits, k, q, low);
    ShiftFits(q, k, low);
    if k > 0 && Shr(q, 64 - k) != 0 { return TooLarge, 0; }
    return Read, Or(Shl(q, k), low);
  }

  lemma {:induction false} GapParts(bits: seq<bool>, k: nat, q: nat, low: nat)
    requires q == LeadingOnes(bits) && q + 1 + k <= |bits| && low == FromBits(bits[q + 1..][..k])
    ensures ReadGap(bits, k) == Gap(q * Pow2(k) + low, bits[q + 1..][k..]) && low < Pow2(k)
  {
    hide Pow2, FromBits, LeadingOnes;
    assert bits[q + 1..][..k] == bits[q + 1..q + 1 + k] && bits[q + 1..][k..] == bits[q + 1 + k..];
    ToFromBits(bits[q + 1..][..k]);
  }

  /** The loop of the reader: one gap a round, each checked before it is added. */
  method ReadBody(body: seq<byte>, k: nat, count: u64, widthBits: nat) returns (r: ParseResult)
    requires |body| < MAX_BLOB && k <= 63 && MIN_BITS <= widthBits <= MAX_BITS
    ensures r == BodyResult(ReadValues(BytesBits(body), k, count, PrefixLimit(widthBits), -1, []), widthBits)
  {
    hide ReadGap, BytesBits, BitReader.Unread, Pow2;
    var limit: u64 := Limit64(widthBits);
    var reader := new BitReader(body);
    ghost var whole := ReadValues(BytesBits(body), k, count, limit, -1, []);
    var values: seq<u64> := [];
    var prev: u64 := 0;
    var i: nat := 0;
    while i < count
      invariant i <= count && |values| == i && reader.Valid() && |reader.Unread()| < WORD
      invariant i > 0 ==> prev <= limit
      invariant whole == ReadValues(reader.Unread(), k, count - i, limit, if i > 0 then prev else -1, values)
    {
      var status, g := NextGap(reader, k);
      if status == Ended { return Rejected(EndsInsideValue(i)); }
      if status == TooLarge { return Rejected(ValueOverflows(i)); }
      var v: u64 := g;
      if i > 0 {
        if prev >= limit || g > limit - prev - 1 { return Rejected(ValueOverflows(i)); }
        v := prev + g + 1;
      }
      if v > limit { return Rejected(ValueOverflows(i)); }
      values, prev, i := values + [v], v, i + 1;
    }
    UnreadLength(reader);
    if reader.pos < |reader.data| || reader.n >= 8 { return Rejected(BytesFollow); }
    return Parsed(values, widthBits);
  }

  lemma UnreadLength(reader: BitReader)
    requires reader.Valid()
    ensures |reader.Unread()| == reader.n + 8 * (|reader.data| - reader.pos)
  {
  }

  /** The client's reader, on arbitrary bytes. */
  method ParseIndexV2(sha: Sha, blob: seq<byte>) returns (r: ParseResult)
    requires |blob| < MAX_BLOB
    ensures r == Parse(sha, blob)
  {
    hide ReadValues, BytesBits, Pow2, GetLE;
    if |blob| < HEADER_SIZE + TRAILER_SIZE { return Rejected(TooSmall); }
    if blob[..4] != MAGIC { return Rejected(BadMagic); }
    if blob[4] != VERSION { return Rejected(BadVersion); }
    var widthBits: nat := blob[5];
    if widthBits < MIN_BITS || widthBits > MAX_BITS { return Rejected(BadWidth); }
    var k: nat := blob[6];
    if k > 63 { return Rejected(BadRiceParam); }
    var bodyEnd := |blob| - TRAILER_SIZE;
    if sha(blob[..bodyEnd]) != blob[bodyEnd..] { return Rejected(TrailerMismatch); }
    var body := blob[HEADER_SIZE..bodyEnd];
    var count: u64 := Count(blob);
    if count > |body| * 8 / (k + 1) { return Rejected(CountDoesNotFit); }
    r := ReadBody(body, k, count, widthBits);
  }

  /** What the server writes is within what the client reads. */
  lemma {:induction false} BlobFits(sha: Sha, widthBits: nat, values: seq<int>)
    requires Encodable(widthBits, values) && |values| < MAX_VALUES
    ensures |Marshal(sha, widthBits, values)| < MAX_BLOB
  {
    hide RiceBits, Ascending, Marshal, RiceParam, Pow2;
    BodyLength(widthBits, values);
    MarshalLength(sha, widthBits, values);
  }

  /**
   The server's writer and then the client's reader, both on words: the list and the width come
   back, although the two split long fields differently and neither masks its accumulator.
   */
  method WriteAndRead(sha: Sha, widthBits: nat, values: seq<u64>) returns (r: ParseResult)
    requires Encodable(widthBits, values) && |values| < MAX_VALUES
    ensures r == Parsed(values, widthBits)
  {
    hide Marshal, Parse, Encodable;
    var blob := MarshalGBCI2(sha, widthBits, values);
    BlobFits(sha, widthBits, values);
    RoundTrip(sha, widthBits, values);
    r := ParseIndexV2(sha, blob);
  }

  /** prefixLimit on words: all ones at width 64. */
  function Limit64(widthBits: nat): (limit: u64)
    requires widthBits <= MAX_BITS
    ensures limit == PrefixLimit(widthBits)
  {
    Pow2Word();
    Pow2Mono(widthBits, 64);
    if widthBits >= 64 then Not(0) else OneShifted(widthBits); Shl(1, widthBits) - 1
  }
}
