/**
 Bit strings, most significant bit first: the specification the bit reader and writer are
 proved against.
 */
module Bits {
  import opened Words

  /** The low n bits of v. */
  function ToBits(v: nat, n: nat): (r: seq<bool>)
    ensures |r| == n
  {
    if n == 0 then [] else ToBits(v / 2, n - 1) + [v % 2 == 1]
  }

  /** The number a bit string writes. */
  function FromBits(b: seq<bool>): (v: nat) {
    if b == [] then 0
    else 2 * FromBits(b[..|b| - 1]) + (if b[|b| - 1] then 1 else 0)
  }

  /** The bits of a byte string. */
  function BytesBits(s: seq<byte>): (r: seq<bool>)
    ensures |r| == 8 * |s|
  {
    if s == [] then [] else ToBits(s[0], 8) + BytesBits(s[1..])
  }

  /** How many ones a bit string starts with. */
  function LeadingOnes(b: seq<bool>): (n: nat)
    ensures n <= |b|
    ensures forall i | 0 <= i < n :: b[i]
    ensures n < |b| ==> !b[n]
  {
    if b == [] || !b[0] then 0 else 1 + LeadingOnes(b[1..])
  }

  function Ones(n: nat): (r: seq<bool>)
    ensures |r| == n && forall i | 0 <= i < n :: r[i]
  {
    seq(n, _ => true)
  }

  function Zeros(n: nat): (r: seq<bool>)
    ensures |r| == n && forall i | 0 <= i < n :: !r[i]
  {
    seq(n, _ => false)
  }

  /** A bit string filled up with zeros to whole bytes. */
  function Padded(b: seq<bool>): (r: seq<bool>)
    ensures |r| % 8 == 0 && b <= r && |r| - |b| < 8
  {
    b + Zeros((8 - |b| % 8) % 8)
  }

  /** n is where the ones end, so it is the count of leading ones. */
  lemma {:induction false} LeadingOnesIs(b: seq<bool>, n: nat)
    requires n <= |b| && forall i | 0 <= i < n :: b[i]
    requires n < |b| ==> !b[n]
    ensures LeadingOnes(b) == n
  {
    if n > 0 { LeadingOnesIs(b[1..], n - 1); }
  }

  function Halve(v: nat, n: nat): nat {
    if n == 0 then v else Halve(v / 2, n - 1)
  }

  lemma {:induction false} HalveIs(v: nat, n: nat)
    ensures Halve(v, n) == v / Pow2(n)
  {
    if n > 0 {
      HalveIs(v / 2, n - 1);
      DivDiv(v, 2, Pow2(n - 1));
    }
  }

  lemma {:induction false} HalveSplit(v: nat, a: nat, b: nat)
    ensures ToBits(v, a + b) == ToBits(Halve(v, b), a) + ToBits(v, b)
  {
    if b > 0 {
      HalveSplit(v / 2, a, b - 1);
      BitsSnoc(v, a + b);
      BitsSnoc(v, b);
    }
  }

  /** A field of a + b bits is its high a bits and then its low b bits. */
  lemma {:induction false} BitsSplit(v: nat, top: nat, a: nat, b: nat)
    requires top == v / Pow2(b)
    ensures ToBits(v, a + b) == ToBits(top, a) + ToBits(v, b)
  {
    HalveIs(v, b);
    HalveSplit(v, a, b);
  }

  lemma {:induction false} BitsSnoc(v: nat, n: nat)
    requires n > 0
    ensures ToBits(v, n) == ToBits(v / 2, n - 1) + [v % 2 == 1]
  {
  }

  /** The low n bits do not see what lies above bit m. */
  lemma {:induction false} BitsMod(v: nat, n: nat, m: nat)
    requires n <= m
    ensures ToBits(v % Pow2(m), n) == ToBits(v, n)
  {
    if n > 0 {
      ModDouble(v, Pow2(m - 1));
      BitsMod(v / 2, n - 1, m - 1);
      var r := v / 2 % Pow2(m - 1);
      assert (2 * r + v % 2) / 2 == r && (2 * r + v % 2) % 2 == v % 2;
    }
  }

  /** Placing a b-bit field under another one puts its bits after the other's. */
  lemma {:induction false} BitsJoin(hi: nat, lo: nat, a: nat, b: nat)
    requires lo < Pow2(b)
    ensures ToBits(hi * Pow2(b) + lo, a + b) == ToBits(hi, a) + ToBits(lo, b)
  {
    var v := hi * Pow2(b) + lo;
    DivModUnique(v, Pow2(b), hi, lo);
    BitsSplit(v, hi, a, b);
    BitsMod(v, b, b);
  }

  lemma {:induction false} FromToBits(v: nat, n: nat)
    ensures FromBits(ToBits(v, n)) == v % Pow2(n)
  {
    if n > 0 {
      FromToBits(v / 2, n - 1);
      ModDouble(v, Pow2(n - 1));
      assert ToBits(v, n)[..n - 1] == ToBits(v / 2, n - 1);
    } else {
      assert v % 1 == 0;
    }
  }

  lemma {:induction false} ToFromBits(b: seq<bool>)
    ensures FromBits(b) < Pow2(|b|) && ToBits(FromBits(b), |b|) == b
  {
    if b != [] {
      var n := |b| - 1;
      ToFromBits(b[..n]);
      var h, l := FromBits(b[..n]), if b[n] then 1 else 0;
      assert (2 * h + l) / 2 == h && (2 * h + l) % 2 == l;
      assert b == b[..n] + [b[n]];
    }
  }

  /** A number below 2^n is what its n bits write. */
  lemma {:induction false} FromBitsIs(b: seq<bool>, v: nat)
    requires v < Pow2(|b|) && ToBits(v, |b|) == b
    ensures FromBits(b) == v
  {
    FromToBits(v, |b|);
    DivModUnique(v, Pow2(|b|), 0, v);
  }

  lemma {:induction false} JoinBound(hi: nat, lo: nat, a: nat, b: nat)
    requires hi < Pow2(a) && lo < Pow2(b)
    ensures hi * Pow2(b) + lo < Pow2(a + b)
  {
    Pow2Add(a, b);
    MulLe(hi + 1, Pow2(a), Pow2(b));
  }

  lemma {:induction false} FromBitsConcat(a: seq<bool>, b: seq<bool>)
    ensures FromBits(a + b) == FromBits(a) * Pow2(|b|) + FromBits(b)
  {
    hide Pow2, ToBits, FromBits;
    var h, l := FromBits(a), FromBits(b);
    assert h < Pow2(|a|) && ToBits(h, |a|) == a by { ToFromBits(a); }
    assert l < Pow2(|b|) && ToBits(l, |b|) == b by { ToFromBits(b); }
    var v := h * Pow2(|b|) + l;
    assert ToBits(v, |a| + |b|) == a + b by { BitsJoin(h, l, |a|, |b|); }
    assert v < Pow2(|a| + |b|) by { JoinBound(h, l, |a|, |b|); }
    FromBitsIs(a + b, v);
  }

  lemma {:induction false} BytesBitsConcat(s: seq<byte>, t: seq<byte>)
    ensures BytesBits(s + t) == BytesBits(s) + BytesBits(t)
  {
    if s == [] {
      assert s + t == t;
    } else {
      BytesBitsConcat(s[1..], t);
      assert (s + t)[1..] == s[1..] + t;
    }
  }

  lemma {:induction false} BytesBitsOne(s: seq<byte>, b: byte)
    ensures BytesBits(s + [b]) == BytesBits(s) + ToBits(b, 8)
  {
    BytesBitsConcat(s, [b]);
    assert BytesBits([b]) == ToBits(b, 8) + [];
  }

  /** Whole bytes from their bits. */
  function Pack(b: seq<bool>): (s: seq<byte>)
    requires |b| % 8 == 0
    ensures |s| == |b| / 8
  {
    if b == [] then [] else
    ByteBound(b[..8]);
    [FromBits(b[..8])] + Pack(b[8..])
  }

  lemma {:induction false} ByteBound(b: seq<bool>)
    requires |b| == 8
    ensures FromBits(b) < 256
  {
    ToFromBits(b);
    Pow2Word();
  }

  lemma {:induction false} BitsOfPack(b: seq<bool>)
    requires |b| % 8 == 0
    ensures BytesBits(Pack(b)) == b
  {
    if b != [] {
      ToFromBits(b[..8]);
      BitsOfPack(b[8..]);
      assert Pack(b)[1..] == Pack(b[8..]);
      assert b == b[..8] + b[8..];
    }
  }

  lemma {:induction false} PackOfBits(s: seq<byte>)
    ensures Pack(BytesBits(s)) == s
  {
    hide ToBits, FromBits, Pow2;
    if s != [] {
      assert BytesBits(s)[..8] == ToBits(s[0], 8) && BytesBits(s)[8..] == BytesBits(s[1..]);
      FromToBits(s[0], 8);
      Pow2Word();
      PackOfBits(s[1..]);
      assert s == [s[0]] + s[1..];
    }
  }
}
