/**
 Machine words as bounded integers.

 The source computes on `uint64` and `byte`. Here a word is an integer of that range, a left
 shift drops what leaves the word, and `&` and `|` work bit by bit. The lemmas say when those
 operators are the arithmetic they are used for.
 */
module Words {
  const WORD: int := 0x1_0000_0000_0000_0000

  type u64 = x: int | 0 <= x < 0x1_0000_0000_0000_0000
  type byte = x: int | 0 <= x < 256

  function Pow2(n: nat): (r: nat)
    ensures r > 0
  {
    if n == 0 then 1 else 2 * Pow2(n - 1)
  }

  /** `x << s`. A shift of 64 or more leaves nothing. */
  function Shl(x: u64, s: nat): u64 {
    x * Pow2(s) % WORD
  }

  /** `x >> s`. */
  function Shr(x: u64, s: nat): u64 {
    ShrBound(x, s);
    x / Pow2(s)
  }

  /** `^x`. */
  function Not(x: u64): u64 {
    WORD - 1 - x
  }

  /** `x & y`, bit by bit. */
  function And(x: nat, y: nat): nat {
    if x == 0 || y == 0 then 0
    else 2 * And(x / 2, y / 2) + (if x % 2 == 1 && y % 2 == 1 then 1 else 0)
  }

  /** `x | y`, bit by bit. */
  function Or(x: nat, y: nat): nat {
    if x == 0 then y
    else if y == 0 then x
    else 2 * Or(x / 2, y / 2) + (if x % 2 == 1 || y % 2 == 1 then 1 else 0)
  }

  /** `bits.Len64(x)`: the bits needed for x. */
  function Len64(x: nat): nat {
    if x == 0 then 0 else 1 + Len64(x / 2)
  }

  /** `bits.LeadingZeros64(x)`. */
  function LeadingZeros64(x: u64): nat {
    Len64Bound(x, 64);
    Pow2Word();
    64 - Len64(x)
  }

  lemma {:induction false} MulLe(a: int, b: int, c: nat)
    requires a <= b
    ensures a * c <= b * c
  {
  }

  lemma {:induction false} MulLt(a: int, b: int, c: int)
    requires a < b && c > 0
    ensures a * c < b * c
  {
  }

  /** Division and remainder are the only way to write x over d. */
  lemma {:induction false} DivModUnique(x: int, d: int, q: int, r: int)
    requires d > 0 && 0 <= r < d && x == q * d + r
    ensures x / d == q && x % d == r
  {
    var q' := x / d;
    assert x == d * q' + x % d;
    if q' < q {
      MulLe(q' + 1, q, d);
    } else if q' > q {
      MulLe(q + 1, q', d);
    }
  }

  lemma {:induction false} DivLe(x: nat, d: nat)
    requires d > 0
    ensures 0 <= x / d <= x
  {
    if x / d > x {
      MulLe(x + 1, x / d, d);
      MulLe(1, d, x + 1);
    }
  }

  lemma {:induction false} DivDiv(x: nat, a: nat, b: nat)
    requires a > 0 && b > 0
    ensures a * b > 0 && x / a / b == x / (a * b)
  {
    var q := x / a / b;
    var r := x / a % b;
    assert x == a * (x / a) + x % a;
    assert x / a == b * q + r;
    assert x == q * (a * b) + (a * r + x % a);
    assert a * r + x % a < a * b by { MulLe(r + 1, b, a); }
    DivModUnique(x, a * b, q, a * r + x % a);
  }

  /** Scaling a remainder scales with the divisor. */
  lemma {:induction false} ScaleMod(x: nat, t: nat, p: nat)
    requires p > 0 && t > 0
    ensures t * p > 0 && x * p % (t * p) == x % t * p
  {
    var q, r := x / t, x % t;
    assert x == t * q + r;
    assert x * p == q * (t * p) + r * p;
    MulLt(r, t, p);
    DivModUnique(x * p, t * p, q, r * p);
  }

  lemma {:induction false} ShrBound(x: nat, s: nat)
    ensures 0 <= x / Pow2(s) <= x
  {
    DivLe(x, Pow2(s));
  }

  lemma {:induction false} Pow2Word()
    ensures Pow2(64) == WORD
    ensures Pow2(32) == 0x1_0000_0000
    ensures Pow2(8) == 256
  {
    assert Pow2(4) == 16;
    Pow2Add(4, 4);
    Pow2Add(8, 8);
    Pow2Add(16, 16);
    Pow2Add(32, 32);
  }

  lemma {:induction false} Pow2Add(a: nat, b: nat)
    ensures Pow2(a + b) == Pow2(a) * Pow2(b)
  {
    if b > 0 {
      Pow2Add(a, b - 1);
      assert Pow2(a + b) == 2 * (Pow2(a) * Pow2(b - 1));
    }
  }

  lemma {:induction false} Pow2Mono(a: nat, b: nat)
    requires a <= b
    ensures Pow2(a) <= Pow2(b)
  {
    if a < b { Pow2Mono(a, b - 1); }
  }

  lemma {:induction false} DivPow(x: nat, a: nat, b: nat)
    ensures x / Pow2(a) / Pow2(b) == x / Pow2(a + b)
  {
    Pow2Add(a, b);
    DivDiv(x, Pow2(a), Pow2(b));
  }

  /** A left shift keeps the low bits that still fit and moves them up. */
  lemma {:induction false} ShlIs(x: u64, s: nat)
    requires s <= 64
    ensures Shl(x, s) == x % Pow2(64 - s) * Pow2(s)
  {
    Pow2Word();
    Pow2Add(64 - s, s);
    ScaleMod(x, Pow2(64 - s), Pow2(s));
  }

  /** Halving, then the remainder: the last bit comes back by itself. */
  lemma {:induction false} ModDouble(x: nat, p: nat)
    requires p > 0
    ensures x % (2 * p) == 2 * (x / 2 % p) + x % 2
  {
    var q, r := x / 2 / p, x / 2 % p;
    assert x / 2 == p * q + r;
    assert x == q * (2 * p) + (2 * r + x % 2);
    DivModUnique(x, 2 * p, q, 2 * r + x % 2);
  }

  /** A mask of k ones keeps the remainder. */
  lemma {:induction false} AndMask(x: nat, k: nat)
    ensures And(x, Pow2(k) - 1) == x % Pow2(k)
  {
    if k == 0 {
      assert And(x, 0) == 0;
    } else {
      AndMask(x / 2, k - 1);
      AndMaskStep(x, Pow2(k - 1));
    }
  }

  lemma {:induction false} AndMaskStep(x: nat, p: nat)
    requires p > 0 && And(x / 2, p - 1) == x / 2 % p
    ensures And(x, 2 * p - 1) == x % (2 * p)
  {
    ModDouble(x, p);
    var m := 2 * p - 1;
    assert m / 2 == p - 1 && m % 2 == 1;
    assert And(x, m) == 2 * And(x / 2, m / 2) + (if x % 2 == 1 && m % 2 == 1 then 1 else 0);
  }

  /** Filling the zero bits a left shift left behind is addition. */
  lemma {:induction false} OrDisjoint(a: nat, b: nat, k: nat)
    requires b < Pow2(k)
    ensures Or(a * Pow2(k), b) == a * Pow2(k) + b
  {
    if k > 0 && a > 0 && b > 0 {
      var p := Pow2(k - 1);
      assert a * Pow2(k) == 2 * (a * p);
      DivModUnique(a * Pow2(k), 2, a * p, 0);
      OrDisjoint(a, b / 2, k - 1);
      assert b == 2 * (b / 2) + b % 2;
    }
  }

  lemma {:induction false} Len64Bound(x: nat, n: nat)
    requires x < WORD
    ensures x < Pow2(n) <==> Len64(x) <= n
    ensures x > 0 ==> Pow2(Len64(x) - 1) <= x < Pow2(Len64(x))
    ensures Len64(x) <= 64
    decreases x
  {
    Pow2Word();
    if x > 0 {
      var h := Len64(x / 2);
      Len64Bound(x / 2, if n > 0 then n - 1 else 0);
      if x / 2 > 0 {
        assert Pow2(h) == 2 * Pow2(h - 1);
      }
      if Len64(x) > 64 {
        Pow2Mono(64, Len64(x) - 1);
      }
    }
  }
}
