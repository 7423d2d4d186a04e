/**
 The v2 index form: Rice-coded gaps between sorted hash prefixes.

 A value v after prev is the gap g = v - prev - 1, written as g >> k in unary and the low k
 bits of g. The first value follows -1, so its gap is the value.
 */
module IndexV2 {
  import opened Words
  import opened Bits
  import opened Gbci

  const VERSION := 2
  const MIN_BITS := 32
  const MAX_BITS := 64

  /** The largest value of widthBits bits. */
  function PrefixLimit(widthBits: nat): nat {
    Pow2(widthBits) - 1
  }

  function RiceParam(widthBits: nat, n: nat): (k: nat)
    ensures k <= 63
  {
    var k := if n > 1 then widthBits - Len64(n - 1) else widthBits;
    if k < 0 then 0 else if k > 63 then 63 else k
  }

  /** Strictly ascending, and above prev. */
  predicate Ascending(prev: int, values: seq<int>)
    decreases |values|
  {
    values == [] || (prev < values[0] && Ascending(values[0], values[1..]))
  }

  /** What the form carries: ascending values of the width. */
  predicate Encodable(widthBits: nat, values: seq<int>) {
    && MIN_BITS <= widthBits <= MAX_BITS
    && Ascending(-1, values)
    && forall v | v in values :: v <= PrefixLimit(widthBits)
  }

  function GapBits(g: nat, k: nat): (r: seq<bool>) {
    Quotient(g, k);
    Ones(g / Pow2(k)) + [false] + ToBits(g, k)
  }

  lemma Quotient(g: nat, k: nat)
    ensures 0 <= g / Pow2(k) <= g
  {
    ShrBound(g, k);
  }

  function RiceBits(k: nat, prev: int, values: seq<int>): (r: seq<bool>)
    requires prev >= -1 && Ascending(prev, values)
    decreases |values|
  {
    if values == [] then []
    else GapBits(values[0] - prev - 1, k) + RiceBits(k, values[0], values[1..])
  }

  datatype GapResult = Gap(g: nat, rest: seq<bool>) | NoGap

  /** Reads one gap off the front of a bit string. */
  function ReadGap(bits: seq<bool>, k: nat): GapResult {
    var q := LeadingOnes(bits);
    if q + 1 + k > |bits| then NoGap
    else Gap(q * Pow2(k) + FromBits(bits[q + 1..q + 1 + k]), bits[q + 1 + k..])
  }

  lemma {:induction false} ReadGapOfBits(g: nat, k: nat, rest: seq<bool>)
    ensures ReadGap(GapBits(g, k) + rest, k) == Gap(g, rest)
  {
    hide Pow2, ToBits, FromBits, LeadingOnes, Ones;
    var q, low := g / Pow2(k), ToBits(g, k);
    Quotient(g, k);
    FromToBits(g, k);
    ZeroAt(q, low, rest);
  }

  lemma {:induction false} ZeroAt(q: nat, low: seq<bool>, rest: seq<bool>)
    ensures var bits := Ones(q) + [false] + low + rest;
            LeadingOnes(bits) == q && bits[q + 1..q + 1 + |low|] == low && bits[q + 1 + |low|..] == rest
  {
    LeadingOnesIs(Ones(q) + [false] + low + rest, q);
  }

  lemma {:induction false} BitsOfReadGap(bits: seq<bool>, k: nat)
    requires ReadGap(bits, k).Gap?
    ensures var Gap(g, rest) := ReadGap(bits, k); bits == GapBits(g, k) + rest
  {
    var Gap(g, rest) := ReadGap(bits, k);
    var q := LeadingOnes(bits);
    var field := bits[q + 1..q + 1 + k];
    assert ToBits(g, k) == field && g / Pow2(k) == q by {
      ToFromBits(field);
      DivModUnique(g, Pow2(k), q, FromBits(field));
      BitsMod(g, k, k);
    }
    SplitAtZero(bits, q, k);
  }

  lemma {:induction false} SplitAtZero(bits: seq<bool>, q: nat, k: nat)
    requires q == LeadingOnes(bits) && q + 1 + k <= |bits|
    ensures bits == Ones(q) + [false] + bits[q + 1..q + 1 + k] + bits[q + 1 + k..]
  {
    hide LeadingOnes, Ones;
    assert bits[..q] == Ones(q);
  }

  datatype ReadResult =
    | Done(values: seq<int>, rest: seq<bool>)
    | EndsInside(at: nat)
    | Overflows(at: nat)

  /** Reads count values of the form off a bit string; acc holds the values already read. */
  function ReadValues(bits: seq<bool>, k: nat, count: nat, limit: nat, prev: int, acc: seq<int>): ReadResult
    requires prev >= -1
    decreases count
  {
    if count == 0 then Done(acc, bits) else
    match ReadGap(bits, k)
    case NoGap => EndsInside(|acc|)
    case Gap(g, rest) =>
      var v := prev + 1 + g;
      if v > limit then Overflows(|acc|)
      else ReadValues(rest, k, count - 1, limit, v, acc + [v])
  }

  /** Reading undoes writing, whatever bits follow. */
  lemma {:induction false} ReadsWhatWasWritten(k: nat, prev: int, values: seq<int>, rest: seq<bool>,
                                               limit: nat, acc: seq<int>)
    requires prev >= -1 && Ascending(prev, values) && forall v | v in values :: v <= limit
    ensures ReadValues(RiceBits(k, prev, values) + rest, k, |values|, limit, prev, acc) == Done(acc + values, rest)
    decreases |values|
  {
    hide ReadGap, GapBits;
    if values == [] {
      assert RiceBits(k, prev, values) + rest == rest && acc + values == acc;
    } else {
      var v, tail := values[0], values[1..];
      assert v in values && forall u | u in tail :: u in values;
      var after := RiceBits(k, v, tail) + rest;
      assert RiceBits(k, prev, values) + rest == GapBits(v - prev - 1, k) + after;
      ReadGapOfBits(v - prev - 1, k, after);
      ReadsWhatWasWritten(k, v, tail, rest, limit, acc + [v]);
      assert acc + [v] + tail == acc + values;
    }
  }

  /** What was read is ascending and in range, and writing it gives the bits back. */
  lemma {:induction false} WritesWhatWasRead(bits: seq<bool>, k: nat, count: nat, limit: nat, prev: int, acc: seq<int>)
    returns (values: seq<int>)
    requires prev >= -1 && ReadValues(bits, k, count, limit, prev, acc).Done?
    ensures var d := ReadValues(bits, k, count, limit, prev, acc);
            && d.values == acc + values && |values| == count
            && Ascending(prev, values) && (forall v | v in values :: v <= limit)
            && bits == RiceBits(k, prev, values) + d.rest
    decreases count
  {
    hide ReadGap, GapBits;
    if count == 0 {
      values := [];
    } else {
      var Gap(g, rest) := ReadGap(bits, k);
      BitsOfReadGap(bits, k);
      var v := prev + 1 + g;
      var tail := WritesWhatWasRead(rest, k, count - 1, limit, v, acc + [v]);
      values := [v] + tail;
      assert values[1..] == tail;
    }
  }

  /** Every value costs at least k + 1 bits. */
  lemma {:induction false} RiceLength(k: nat, prev: int, values: seq<int>)
    requires prev >= -1 && Ascending(prev, values)
    ensures |RiceBits(k, prev, values)| >= |values| * (k + 1)
    decreases |values|
  {
    hide Pow2;
    if values != [] {
      Quotient(values[0] - prev - 1, k);
      RiceLength(k, values[0], values[1..]);
      assert |values| * (k + 1) == |values[1..]| * (k + 1) + (k + 1);
    }
  }

  /** The blob of a list of values. */
  function Marshal(sha: Sha, widthBits: nat, values: seq<int>): (blob: seq<byte>)
    requires Encodable(widthBits, values)
    ensures LongEnough(blob)
  {
    var k := RiceParam(widthBits, |values|);
    Frame(sha, VERSION, widthBits, k, |values|, Pack(Padded(RiceBits(k, -1, values))))
  }

  datatype ParseError =
    | TooSmall | BadMagic | BadVersion | BadWidth | BadRiceParam | TrailerMismatch
    | CountDoesNotFit | EndsInsideValue(at: nat) | ValueOverflows(at: nat) | BytesFollow

  datatype ParseResult = Parsed(values: seq<int>, widthBits: nat) | Rejected(error: ParseError)

  /** Each value takes more than k bits. */
  predicate CountFits(count: nat, bytes: nat, k: nat) {
    count <= bytes * 8 / (k + 1)
  }

  /** What a blob holds, in the order its fields are checked. */
  function Parse(sha: Sha, blob: seq<byte>): ParseResult {
    if !LongEnough(blob) then Rejected(TooSmall)
    else if blob[..4] != MAGIC then Rejected(BadMagic)
    else if blob[4] != VERSION then Rejected(BadVersion)
    else if blob[5] < MIN_BITS || blob[5] > MAX_BITS then Rejected(BadWidth)
    else if blob[6] > 63 then Rejected(BadRiceParam)
    else if !TrailerHolds(sha, blob) then Rejected(TrailerMismatch)
    else if !CountFits(Count(blob), |Body(blob)|, blob[6]) then Rejected(CountDoesNotFit)
    else BodyResult(ReadValues(BytesBits(Body(blob)), blob[6], Count(blob), PrefixLimit(blob[5]), -1, []), blob[5])
  }

  /** What reading the body makes of a blob: whole bytes after the last value are refused. */
  function BodyResult(r: ReadResult, widthBits: nat): ParseResult {
    match r
    case EndsInside(at) => Rejected(EndsInsideValue(at))
    case Overflows(at) => Rejected(ValueOverflows(at))
    case Done(values, rest) => if |rest| >= 8 then Rejected(BytesFollow) else Parsed(values, widthBits)
  }

  /** The frame checks, apart from the body. */
  predicate FrameHolds(sha: Sha, blob: seq<byte>) {
    && LongEnough(blob) && blob[..4] == MAGIC && blob[4] == VERSION
    && MIN_BITS <= blob[5] <= MAX_BITS && blob[6] <= 63 && TrailerHolds(sha, blob)
  }

  /** The body is the values, written, and less than a byte more. */
  ghost predicate BodyHolds(blob: seq<byte>, values: seq<int>)
    requires LongEnough(blob) && Ascending(-1, values)
  {
    && |values| == Count(blob)
    && RiceBits(blob[6], -1, values) <= BytesBits(Body(blob))
    && |BytesBits(Body(blob))| - |RiceBits(blob[6], -1, values)| < 8
  }

  /**
   A blob parses to values if and only if its frame holds, the values are ascending and of the
   width it names, and its body is those values, written, with less than a byte after them.
   */
  lemma {:induction false} ParseExactly(sha: Sha, blob: seq<byte>, values: seq<int>, widthBits: nat)
    ensures Parse(sha, blob) == Parsed(values, widthBits) <==>
            FrameHolds(sha, blob) && widthBits == blob[5] && Encodable(widthBits, values) && BodyHolds(blob, values)
  {
    if Parse(sha, blob) == Parsed(values, widthBits) {
      ParseIsSound(sha, blob);
    }
    if FrameHolds(sha, blob) && widthBits == blob[5] && Encodable(widthBits, values) && BodyHolds(blob, values) {
      ParseIsComplete(sha, blob, values);
    }
  }

  /** Arbitrary bytes that parse gave ascending values of the width, and nothing else. */
  lemma {:induction false} ParseIsSound(sha: Sha, blob: seq<byte>)
    requires Parse(sha, blob).Parsed?
    ensures var Parsed(values, widthBits) := Parse(sha, blob);
            FrameHolds(sha, blob) && widthBits == blob[5] && Encodable(widthBits, values) && BodyHolds(blob, values)
  {
    hide ReadValues, RiceBits, Pow2, BytesBits, TrailerHolds, Count, Ascending;
    var bits, k, limit := BytesBits(Body(blob)), blob[6], PrefixLimit(blob[5]);
    var values := WritesWhatWasRead(bits, k, Count(blob), limit, -1, []);
    assert [] + values == values;
  }

  lemma {:induction false} ParseIsComplete(sha: Sha, blob: seq<byte>, values: seq<int>)
    requires FrameHolds(sha, blob) && Encodable(blob[5], values) && BodyHolds(blob, values)
    ensures Parse(sha, blob) == Parsed(values, blob[5])
  {
    hide ReadValues, RiceBits, Pow2, BytesBits, TrailerHolds, Count, Ascending, Body, CountFits;
    BodyReads(BytesBits(Body(blob)), blob[6], values, PrefixLimit(blob[5]));
  }

  /** Bits that start with written values read back as those values. */
  lemma {:induction false} BodyReads(bits: seq<bool>, k: nat, values: seq<int>, limit: nat)
    requires Ascending(-1, values) && (forall v | v in values :: v <= limit) && RiceBits(k, -1, values) <= bits
    ensures forall bytes: nat | bytes * 8 == |bits| :: CountFits(|values|, bytes, k)
    ensures ReadValues(bits, k, |values|, limit, -1, []) == Done(values, bits[|RiceBits(k, -1, values)|..])
  {
    hide ReadValues, RiceBits, Ascending;
    var written := RiceBits(k, -1, values);
    var rest := bits[|written|..];
    RiceLength(k, -1, values);
    QuotientGe(|values|, k + 1, |bits|);
    ReadsWhatWasWritten(k, -1, values, rest, limit, []);
    assert written + rest == bits && [] + values == values;
  }

  lemma QuotientGe(n: nat, d: nat, x: nat)
    requires d > 0 && n * d <= x
    ensures n <= x / d
  {
    if n > x / d { MulLe(x / d + 1, n, d); }
  }

  /** The client reads back exactly the list and the width the server wrote. */
  lemma {:induction false} RoundTrip(sha: Sha, widthBits: nat, values: seq<int>)
    requires Encodable(widthBits, values) && |values| < WORD
    ensures Parse(sha, Marshal(sha, widthBits, values)) == Parsed(values, widthBits)
  {
    hide RiceBits, ReadValues, Pow2, RiceParam, Padded, Frame, BytesBits, TrailerHolds, Count, Ascending;
    var k := RiceParam(widthBits, |values|);
    var bits := Padded(RiceBits(k, -1, values));
    FrameFields(sha, VERSION, widthBits, k, |values|, Pack(bits));
    BitsOfPack(bits);
    ParseIsComplete(sha, Marshal(sha, widthBits, values), values);
  }

  /** The unary part of a body: the sum of the gaps' quotients. */
  function QuotientSum(k: nat, prev: int, values: seq<int>): nat
    requires prev >= -1 && Ascending(prev, values)
    decreases |values|
  {
    if values == [] then 0 else
    Quotient(values[0] - prev - 1, k);
    (values[0] - prev - 1) / Pow2(k) + QuotientSum(k, values[0], values[1..])
  }

  lemma {:induction false} RiceLengthIs(k: nat, prev: int, values: seq<int>)
    requires prev >= -1 && Ascending(prev, values)
    ensures |RiceBits(k, prev, values)| == QuotientSum(k, prev, values) + |values| * (k + 1)
    decreases |values|
  {
    hide Pow2;
    if values != [] {
      Quotient(values[0] - prev - 1, k);
      RiceLengthIs(k, values[0], values[1..]);
      assert |values| * (k + 1) == |values[1..]| * (k + 1) + (k + 1);
    }
  }

  /** The gaps sum to the last value less what the values themselves take up. */
  lemma {:induction false} GapsFitRange(k: nat, prev: int, values: seq<int>, limit: nat)
    requires -1 <= prev <= limit && Ascending(prev, values) && forall v | v in values :: v <= limit
    ensures QuotientSum(k, prev, values) * Pow2(k) + |values| <= limit - prev
    decreases |values|
  {
    hide Pow2;
    if values != [] {
      var v, g, p := values[0], values[0] - prev - 1, Pow2(k);
      assert v in values && forall u | u in values[1..] :: u in values;
      GapsFitRange(k, v, values[1..], limit);
      Quotient(g, k);
      var tail := QuotientSum(k, v, values[1..]);
      assert g == p * (g / p) + g % p;
      assert (g / p + tail) * p == p * (g / p) + tail * p;
    }
  }

  /** A parameter k of the width leaves the quotients the rest of the range. */
  lemma {:induction false} QuotientsFitRange(widthBits: nat, k: nat, values: seq<int>)
    requires Encodable(widthBits, values) && k <= widthBits
    ensures QuotientSum(k, -1, values) < Pow2(widthBits - k)
  {
    if values == [] { return; }
    hide Pow2, QuotientSum, Ascending;
    Pow2Add(widthBits - k, k);
    GapsFitRange(k, -1, values, PrefixLimit(widthBits));
    var q, top, p := QuotientSum(k, -1, values), Pow2(widthBits - k), Pow2(k);
    if q >= top { MulLe(top, q, p); }
  }

  /** n distinct values of the width need at most 2^width, so the parameter is never clamped. */
  lemma {:induction false} RiceParamIs(widthBits: nat, values: seq<int>)
    requires Encodable(widthBits, values) && 2 <= |values| < WORD
    ensures RiceParam(widthBits, |values|) == widthBits - Len64(|values| - 1)
    ensures Pow2(Len64(|values| - 1)) <= 2 * (|values| - 1)
  {
    hide QuotientSum, Ascending;
    var m := |values| - 1;
    GapsFitRange(0, -1, values, PrefixLimit(widthBits));
    Len64Bound(m, widthBits);
    assert Pow2(Len64(m)) == 2 * Pow2(Len64(m) - 1);
  }

  /**
   From two values on, the Rice parameter keeps the quotients below two for each gap, so the
   body takes less than k + 3 bits a value.
   */
  lemma {:induction false} BodyBound(widthBits: nat, values: seq<int>)
    requires Encodable(widthBits, values) && 2 <= |values| < WORD
    ensures var n := |values|; var k := RiceParam(widthBits, n);
            && QuotientSum(k, -1, values) < 2 * (n - 1)
            && |RiceBits(k, -1, values)| < n * (k + 1) + 2 * n
  {
    hide Pow2, Len64, RiceParam, QuotientSum, RiceBits, Ascending;
    var k := RiceParam(widthBits, |values|);
    RiceParamIs(widthBits, values);
    QuotientsFitRange(widthBits, k, values);
    RiceLengthIs(k, -1, values);
  }

  /** A body takes less than 66 bits a value, and a short one less than a word of bits. */
  lemma {:induction false} BodyLength(widthBits: nat, values: seq<int>)
    requires Encodable(widthBits, values) && |values| < WORD
    ensures |RiceBits(RiceParam(widthBits, |values|), -1, values)| <= if |values| >= 2 then 66 * |values| else 0x1_0000_0040
  {
    hide Pow2, Len64, QuotientSum, RiceBits, Ascending;
    var n, k := |values|, RiceParam(widthBits, |values|);
    MulLe(k + 1, 64, n);
    if n >= 2 {
      BodyBound(widthBits, values);
    } else {
      RiceLengthIs(k, -1, values);
      QuotientsFitRange(widthBits, k, values);
      Pow2Mono(widthBits - k, 32);
      Pow2Word();
    }
  }
}
