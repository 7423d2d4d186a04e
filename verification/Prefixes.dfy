/**
 Action hashes and the prefixes of them that the index carries.

 A 32-byte hash is the number its bytes write, most significant first. CompareIsOrder says that
 comparing bytes is comparing those numbers, so the source's bytes.Compare is `<` here.
 */
module Prefixes {
  import opened Words

  type Hash = h: int | 0 <= h < 0x1_00000000_00000000_00000000_00000000_00000000_00000000_00000000_00000000

  function GetBE(s: seq<byte>): (v: nat) {
    if s == [] then 0 else 256 * GetBE(s[..|s| - 1]) + s[|s| - 1]
  }

  /** bytes.Compare(a, b) < 0. */
  predicate LexLess(a: seq<byte>, b: seq<byte>) {
    if a == [] then b != []
    else b != [] && (a[0] < b[0] || (a[0] == b[0] && LexLess(a[1..], b[1..])))
  }

  lemma {:induction false} GetBEHead(s: seq<byte>)
    requires s != []
    ensures GetBE(s) == s[0] * Pow2(8 * (|s| - 1)) + GetBE(s[1..]) && GetBE(s) < Pow2(8 * |s|)
  {
    hide Pow2;
    var n := |s| - 1;
    BytePower(n);
    if n == 0 {
      ZeroPower();
    } else {
      GetBEHead(s[..n]);
      assert s[..n][1..] == s[1..][..n - 1];
      BytePower(n - 1);
      ShiftByte(s[0], Pow2(8 * (n - 1)), GetBE(s[1..][..n - 1]), s[n]);
    }
  }

  lemma ShiftByte(top: nat, p: nat, rest: nat, low: byte)
    requires top * p + rest < 256 * p
    ensures 256 * (top * p + rest) + low == top * (256 * p) + (256 * rest + low) < 256 * (256 * p)
  {
  }

  lemma {:induction false} BytePower(n: nat)
    ensures Pow2(8 * (n + 1)) == 256 * Pow2(8 * n)
  {
    Pow2Word();
    Pow2Add(8, 8 * n);
    assert 8 + 8 * n == 8 * (n + 1);
  }

  lemma ZeroPower()
    ensures Pow2(8 * 0) == 1
  {
  }

  /** On byte strings of one length the byte order is the order of the numbers. */
  lemma {:induction false} CompareIsOrder(a: seq<byte>, b: seq<byte>)
    requires |a| == |b|
    ensures LexLess(a, b) <==> GetBE(a) < GetBE(b)
  {
    if a != [] {
      var p := Pow2(8 * (|a| - 1));
      GetBEHead(a);
      GetBEHead(b);
      CompareIsOrder(a[1..], b[1..]);
      if |a| > 1 {
        GetBEHead(a[1..]);
        GetBEHead(b[1..]);
      }
      hide GetBE, LexLess, Pow2;
      HeadDecides(a[0], GetBE(a[1..]), b[0], GetBE(b[1..]), p);
    }
  }

  lemma HeadDecides(x: int, s: int, y: int, t: int, p: int)
    requires 0 <= s < p && 0 <= t < p
    ensures x * p + s < y * p + t <==> x < y || (x == y && s < t)
  {
    if x < y { MulLe(x + 1, y, p); }
    if y < x { MulLe(y + 1, x, p); }
  }

  /** The leading bits of a hash, right-aligned. */
  function Top(h: Hash, bits: nat): (v: nat)
    requires bits <= 256
  {
    DivLe(h, Pow2(256 - bits));
    h / Pow2(256 - bits)
  }

  /** A key with its low shift bits cleared. */
  function Masked(k: u64, shift: nat): u64 {
    MaskedBound(k, shift);
    k / Pow2(shift) * Pow2(shift)
  }

  lemma MaskedBound(k: u64, shift: nat)
    ensures 0 <= k / Pow2(shift) * Pow2(shift) <= k
  {
    var p := Pow2(shift);
    assert k == p * (k / p) + k % p;
    DivLe(k, p);
  }

  lemma {:induction false} HashSpace(h: Hash)
    ensures 0 <= h < Pow2(256)
  {
    Pow2Word();
    Pow2Add(64, 64);
    Pow2Add(128, 128);
  }

  lemma {:induction false} TopBound(h: Hash, bits: nat)
    requires bits <= 256
    ensures Top(h, bits) < Pow2(bits)
  {
    hide Pow2;
    HashSpace(h);
    Pow2Add(bits, 256 - bits);
    var p, t := Pow2(256 - bits), Pow2(bits);
    if h / p >= t { MulLe(t, h / p, p); }
  }

  /** Hashes in order have prefixes in order. */
  lemma {:induction false} TopMono(a: Hash, b: Hash, bits: nat)
    requires bits <= 256 && a <= b
    ensures Top(a, bits) <= Top(b, bits)
  {
    hide Pow2;
    var p := Pow2(256 - bits);
    if a / p > b / p { MulLe(b / p + 1, a / p, p); }
  }

  /** A prefix of a prefix is the shorter prefix. */
  lemma {:induction false} TopOfTop(h: Hash, wide: nat, bits: nat)
    requires bits <= wide <= 256
    ensures Top(h, wide) / Pow2(wide - bits) == Top(h, bits)
  {
    hide Pow2;
    DivPow(h, 256 - wide, wide - bits);
  }

  /** The leading eight bytes of a hash. */
  function Key64(h: Hash): u64 {
    TopBound(h, 64);
    Pow2Word();
    Top(h, 64)
  }

  /** The key a set that drops the low shift bits holds h as. */
  function KeyAt(h: Hash, shift: nat): u64 {
    Masked(Key64(h), shift)
  }

  ghost function KeysAt(hashes: set<int>, shift: nat): set<int> {
    set h: Hash | h in hashes :: KeyAt(h, shift)
  }

  ghost function Tops(hashes: set<int>, bits: nat): set<int>
    requires bits <= 256
  {
    set h: Hash | h in hashes :: Top(h, bits)
  }

  /** A prefix moved to the top of a word is the masked key. */
  lemma {:induction false} KeyFromTop(h: Hash, bits: nat)
    requires bits <= 64
    ensures Top(h, bits) < WORD && Shr(Key64(h), 64 - bits) == Top(h, bits)
    ensures Shl(Top(h, bits), 64 - bits) == KeyAt(h, 64 - bits)
  {
    hide Pow2;
    TopOfTop(h, 64, bits);
    TopBound(h, bits);
    Pow2Word();
    Pow2Mono(bits, 64);
    var v := Top(h, bits);
    ShlIs(v, 64 - bits);
    DivModUnique(v, Pow2(bits), 0, v);
  }

  /** A mask over s zeros keeps what it keeps of the number without its low s bits. */
  lemma {:induction false} AndHigh(x: nat, mask: nat, s: nat, p: nat, q: nat)
    requires p == Pow2(s) && q == x / p
    ensures And(x, mask * p) == And(q, mask) * p
  {
    if s == 0 {
      assert x / 1 == x;
    } else {
      var half := Pow2(s - 1);
      DivDiv(x, 2, half);
      AndHigh(x / 2, mask, s - 1, half, q);
      AndHighStep(x, mask, half, q);
    }
  }

  lemma {:induction false} AndHighStep(x: nat, mask: nat, half: nat, q: nat)
    requires And(x / 2, mask * half) == And(q, mask) * half
    ensures And(x, mask * (2 * half)) == And(q, mask) * (2 * half)
  {
    hide And;
    AndDouble(x, mask * half);
    assert mask * (2 * half) == 2 * (mask * half);
  }

  lemma {:induction false} AndDouble(x: nat, y: nat)
    ensures And(x, 2 * y) == 2 * And(x / 2, y)
  {
    assert 2 * y / 2 == y && 2 * y % 2 == 0;
  }

  /** `k & (^0 << shift)`. */
  lemma {:induction false} MaskIs(k: u64, shift: nat)
    requires shift <= 64
    ensures And(k, Shl(Not(0), shift)) == Masked(k, shift)
  {
    hide Pow2, And;
    var t, p := Pow2(64 - shift), Pow2(shift);
    assert t * p == WORD by { Pow2Word(); Pow2Add(64 - shift, shift); }
    var q := k / p;
    DivLe(k, p);
    assert q < t by { if q >= t { MulLe(t, q, p); } }
    NotZeroMod(t, p);
    ShlIs(Not(0), shift);
    AndHigh(k, t - 1, shift, p, q);
    AndMask(q, 64 - shift);
    DivModUnique(q, t, 0, q);
  }

  lemma NotZeroMod(t: nat, p: nat)
    requires t > 0 && p > 0
    ensures (t * p - 1) % t == t - 1
  {
    assert t * p - 1 == (p - 1) * t + (t - 1);
    DivModUnique(t * p - 1, t, p - 1, t - 1);
  }

  /** Masking again, at least as far, is masking once. */
  lemma {:induction false} MaskTwice(k: u64, s: nat, shift: nat)
    requires s <= shift
    ensures Masked(Masked(k, s), shift) == Masked(k, shift)
  {
    hide Pow2;
    DivPow(k, s, shift - s);
    DivPow(Masked(k, s), s, shift - s);
    DivModUnique(Masked(k, s), Pow2(s), k / Pow2(s), 0);
  }

  lemma {:induction false} MaskMono(a: u64, b: u64, shift: nat)
    requires a <= b
    ensures Masked(a, shift) <= Masked(b, shift)
  {
    hide Pow2;
    var p := Pow2(shift);
    if a / p > b / p { MulLe(b / p + 1, a / p, p); }
    MulLe(a / p, b / p, p);
  }

  /** Keys with their low shift bits cleared. */
  ghost function Narrowed(keys: set<int>, shift: nat): set<int> {
    set k: u64 | k in keys :: Masked(k, shift)
  }

  /** Keys masked further are the keys of the narrower width. */
  lemma {:induction false} NarrowedKeys(hashes: set<int>, s: nat, shift: nat)
    requires s <= shift
    ensures Narrowed(KeysAt(hashes, s), shift) == KeysAt(hashes, shift)
  {
    hide Masked;
    forall h: Hash
      ensures Masked(KeyAt(h, s), shift) == KeyAt(h, shift)
    {
      MaskTwice(Key64(h), s, shift);
    }
    forall k | k in KeysAt(hashes, shift)
      ensures k in Narrowed(KeysAt(hashes, s), shift)
    {
      var h: Hash :| h in hashes && KeyAt(h, shift) == k;
      assert KeyAt(h, s) in KeysAt(hashes, s);
    }
  }

  lemma KeysUnion(a: set<int>, b: set<int>, shift: nat)
    ensures KeysAt(a + b, shift) == KeysAt(a, shift) + KeysAt(b, shift)
  {
  }
}
