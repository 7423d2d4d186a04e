/**
 The bit writer and the bit reader of the v2 index form.

 Neither one masks its 64-bit accumulator: bits that were already written, or already read,
 stay above the live ones and are pushed out by later shifts. The contracts speak of the bit
 string written so far and of the bit string still unread.
 */
module BitIO {
  import opened Words
  import opened Bits

  /** `acc<<nbits | v&(1<<nbits-1)`: the bits that still fit, moved up, over the low bits of v. */
  function Pushed(acc: u64, v: u64, nbits: nat): u64
    requires nbits <= 64
  {
    PushValue(acc, v, nbits);
    Or(Shl(acc, nbits), And(v, Pow2(nbits) - 1))
  }

  lemma {:induction false} PushValue(acc: u64, v: u64, nbits: nat)
    requires nbits <= 64
    ensures Or(Shl(acc, nbits), And(v, Pow2(nbits) - 1))
         == acc % Pow2(64 - nbits) * Pow2(nbits) + v % Pow2(nbits) < WORD
  {
    var kept, low := acc % Pow2(64 - nbits), v % Pow2(nbits);
    ShlIs(acc, nbits);
    AndMask(v, nbits);
    OrDisjoint(kept, low, nbits);
    Pow2Word();
    JoinBound(kept, low, 64 - nbits, nbits);
  }

  /** Shifting nbits of v into an accumulator appends them to its low n bits. */
  lemma {:induction false} PushBits(acc: u64, n: nat, v: u64, nbits: nat)
    requires n + nbits <= 64
    ensures ToBits(Pushed(acc, v, nbits), n + nbits) == ToBits(acc, n) + ToBits(v, nbits)
  {
    var kept, low := acc % Pow2(64 - nbits), v % Pow2(nbits);
    PushValue(acc, v, nbits);
    assert ToBits(kept, n) == ToBits(acc, n) by { BitsMod(acc, n, 64 - nbits); }
    assert ToBits(low, nbits) == ToBits(v, nbits) by { BitsMod(v, nbits, nbits); }
    BitsJoin(kept, low, n, nbits);
  }

  /** The byte above the low n bits, taken out by a shift and a cast. */
  lemma {:induction false} TopByte(acc: u64, n: nat)
    ensures ToBits(acc, n + 8) == ToBits(Shr(acc, n) % 256, 8) + ToBits(acc, n)
  {
    BitsSplit(acc, Shr(acc, n), 8, n);
    Pow2Word();
    BitsMod(Shr(acc, n), 8, 8);
  }

  lemma {:induction false} AllOnes(n: nat)
    ensures ToBits(Pow2(n) - 1, n) == Ones(n)
  {
    if n > 0 {
      var m := Pow2(n) - 1;
      assert m / 2 == Pow2(n - 1) - 1 && m % 2 == 1;
      AllOnes(n - 1);
      assert Ones(n) == Ones(n - 1) + [true];
    }
  }

  lemma FullWord()
    ensures ToBits(0xFFFF_FFFF, 32) == Ones(32)
  {
    Pow2Word();
    AllOnes(32);
  }

  lemma OnesConcat(s: seq<bool>, a: nat, b: nat)
    ensures s + Ones(a) + Ones(b) == s + Ones(a + b)
  {
  }

  lemma {:induction false} ZeroBits(n: nat)
    ensures ToBits(0, n) == Zeros(n)
  {
    if n > 0 {
      ZeroBits(n - 1);
      assert Zeros(n) == Zeros(n - 1) + [false];
    }
  }

  /** A field over 32 bits is its top 32 bits, then what the mask leaves. */
  lemma {:induction false} SplitHigh(v: u64, m: nat)
    requires 32 < m <= 64
    ensures 0 <= And(v, 0xFFFF_FFFF) < WORD
    ensures ToBits(v, m) == ToBits(Shr(v, m - 32), 32) + ToBits(And(v, 0xFFFF_FFFF), m - 32)
  {
    Pow2Word();
    AndMask(v, 32);
    BitsMod(v, m - 32, 32);
    BitsSplit(v, Shr(v, m - 32), 32, m - 32);
  }

  /** The last n bits, moved to the top of a byte over zeros. */
  lemma {:induction false} FlushByte(acc: u64, n: nat)
    requires n <= 8
    ensures ToBits(Shl(acc, 8 - n) % 256, 8) == ToBits(acc, n) + Zeros(8 - n)
  {
    var kept := acc % Pow2(56 + n);
    ShlIs(acc, 8 - n);
    BitsJoin(kept, 0, n, 8 - n);
    BitsMod(acc, n, 56 + n);
    ZeroBits(8 - n);
    Pow2Word();
    BitsMod(Shl(acc, 8 - n), 8, 8);
  }

  /** q ones and a zero, as the word the writer hands to its bit field. */
  lemma {:induction false} UnaryWord(q: nat)
    requires q < 32
    ensures Shl(1, q) >= 1 && ToBits(Shl(Shl(1, q) - 1, 1), q + 1) == Ones(q) + [false]
  {
    Pow2Word();
    Pow2Mono(q, 32);
    var m := Pow2(q) - 1;
    assert Shl(1, q) == Pow2(q);
    assert Pow2(1) == 2;
    assert Shl(m, 1) == 2 * m;
    assert 2 * m / 2 == m && 2 * m % 2 == 0;
    AllOnes(q);
  }

  lemma {:induction false} EmitByte(buf: seq<byte>, acc: u64, n: nat)
    ensures BytesBits(buf + [Shr(acc, n) % 256]) + ToBits(acc, n) == BytesBits(buf) + ToBits(acc, n + 8)
  {
    TopByte(acc, n);
    BytesBitsOne(buf, Shr(acc, n) % 256);
  }

  lemma PaddedPart(whole: seq<bool>, part: seq<bool>)
    requires |whole| % 8 == 0 && 0 < |part| < 8
    ensures Padded(whole + part) == whole + (part + Zeros(8 - |part|))
  {
    assert |whole + part| % 8 == |part|;
  }

  lemma {:induction false} FlushPads(buf: seq<byte>, acc: u64, n: nat)
    requires 0 < n < 8
    ensures BytesBits(buf + [Shl(acc, 8 - n) % 256]) == Padded(BytesBits(buf) + ToBits(acc, n))
  {
    FlushByte(acc, n);
    BytesBitsOne(buf, Shl(acc, 8 - n) % 256);
    PaddedPart(BytesBits(buf), ToBits(acc, n));
  }

  class BitWriter {
    var buf: seq<byte>
    var acc: u64
    var n: nat

    ghost predicate Valid()
      reads this
    {
      n < 8
    }

    /** Every bit written so far. */
    ghost function Contents(): seq<bool>
      reads this
    {
      BytesBits(buf) + ToBits(acc, n)
    }

    constructor (header: seq<byte>)
      ensures Valid() && Contents() == BytesBits(header)
    {
      buf, acc, n := header, 0, 0;
    }

    method WriteBits(v: u64, nbits: nat)
      requires Valid() && nbits <= 64
      modifies this
      ensures Valid() && Contents() == old(Contents()) + ToBits(v, nbits)
      decreases nbits
    {
      var v': u64, m: nat := v, nbits;
      while m > 32
        invariant Valid() && m <= nbits
        invariant Contents() + ToBits(v', m) == old(Contents()) + ToBits(v, nbits)
      {
        SplitHigh(v', m);
        ghost var before, all := Contents(), ToBits(v', m);
        var top, rest := Shr(v', m - 32), And(v', 0xFFFF_FFFF);
        assert before + all == before + ToBits(top, 32) + ToBits(rest, m - 32);
        WriteBits(top, 32);
        v', m := rest, m - 32;
      }
      Push(v', m);
      Emit();
    }

    /** Takes nbits of v into the accumulator. */
    method Push(v: u64, nbits: nat)
      requires n + nbits <= 64
      modifies this
      ensures n == old(n) + nbits && Contents() == old(Contents()) + ToBits(v, nbits)
    {
      PushBits(acc, n, v, nbits);
      acc, n := Pushed(acc, v, nbits), n + nbits;
    }

    /** Moves every whole byte from the accumulator to the buffer. */
    method Emit()
      modifies this
      ensures Valid() && Contents() == old(Contents())
    {
      while n >= 8
        invariant Contents() == old(Contents())
      {
        n := n - 8;
        EmitByte(buf, acc, n);
        buf := buf + [Shr(acc, n) % 256];
      }
    }

    method WriteUnary(q: u64)
      requires Valid()
      modifies this
      ensures Valid() && Contents() == old(Contents()) + Ones(q) + [false]
    {
      var left: u64 := q;
      while left >= 32
        invariant Valid() && left <= q
        invariant Contents() == old(Contents()) + Ones(q - left)
      {
        FullWord();
        OnesConcat(old(Contents()), q - left, 32);
        WriteBits(0xFFFF_FFFF, 32);
        left := left - 32;
      }
      UnaryWord(left);
      OnesConcat(old(Contents()), q - left, left);
      WriteBits(Shl(Shl(1, left) - 1, 1), left + 1);
    }

    method Flush() returns (out: seq<byte>)
      requires Valid()
      modifies this
      ensures n == 0 && out == buf
      ensures BytesBits(out) == Padded(old(Contents()))
    {
      if n > 0 {
        FlushPads(buf, acc, n);
        buf := buf + [Shl(acc, 8 - n) % 256];
        n := 0;
      }
      out := buf;
    }
  }

  lemma {:induction false} LoadByte(acc: u64, n: nat, b: byte)
    requires n <= 56
    ensures 0 <= Or(Shl(acc, 8), b) < WORD
    ensures ToBits(Or(Shl(acc, 8), b), n + 8) == ToBits(acc, n) + ToBits(b, 8)
  {
    ByteMask(b);
    PushBits(acc, n, b, 8);
    assert Pushed(acc, b, 8) == Or(Shl(acc, 8), b);
  }

  lemma {:induction false} ByteMask(b: byte)
    ensures And(b, Pow2(8) - 1) == b
  {
    AndMask(b, 8);
    Pow2Word();
    DivModUnique(b, 256, 0, b);
  }

  lemma {:induction false} BytesBitsAt(s: seq<byte>, i: nat)
    requires i < |s|
    ensures BytesBits(s[i..]) == ToBits(s[i], 8) + BytesBits(s[i + 1..])
  {
    assert s[i..][1..] == s[i + 1..];
  }

  /** `acc >> n & (1<<m - 1)` is the number the first m of the low n + m bits write. */
  lemma {:induction false} TakeBits(acc: u64, n: nat, m: nat)
    requires n + m <= 64
    ensures And(Shr(acc, n), Pow2(m) - 1) == FromBits(ToBits(acc, n + m)[..m])
    ensures And(Shr(acc, n), Pow2(m) - 1) < WORD
  {
    BitsSplit(acc, Shr(acc, n), m, n);
    AndMask(Shr(acc, n), m);
    FromToBits(Shr(acc, n), m);
    Pow2Word();
    Pow2Mono(m, 64);
    assert ToBits(acc, n + m)[..m] == ToBits(Shr(acc, n), m);
  }

  /** `hi<<32 | lo`, when hi has at most 32 bits. */
  lemma {:induction false} JoinHalves(hi: seq<bool>, lo: seq<bool>)
    requires |hi| <= 32 && |lo| == 32
    ensures FromBits(hi) < WORD && FromBits(lo) < WORD && FromBits(hi + lo) < WORD
    ensures Or(Shl(FromBits(hi), 32), FromBits(lo)) == FromBits(hi + lo)
  {
    Pow2Word();
    ToFromBits(hi);
    ToFromBits(lo);
    ToFromBits(hi + lo);
    Pow2Mono(|hi|, 32);
    Pow2Mono(|hi + lo|, 64);
    FromBitsConcat(hi, lo);
    DivModUnique(FromBits(hi) * Pow2(32), WORD, 0, FromBits(hi) * Pow2(32));
    OrDisjoint(FromBits(hi), FromBits(lo), 32);
  }

  lemma {:induction false} LeadingOnesSnoc(s: seq<bool>, b: bool)
    ensures LeadingOnes(s + [b]) == if LeadingOnes(s) < |s| then LeadingOnes(s) else |s| + (if b then 1 else 0)
  {
    LeadingOnesIs(s + [b], if LeadingOnes(s) < |s| then LeadingOnes(s) else |s| + (if b then 1 else 0));
  }

  /** The ones at the top of a word are the zeros at the top of its complement. */
  lemma {:induction false} CountOnes(x: nat, y: nat, w: nat)
    requires x + y == Pow2(w) - 1
    ensures Len64(y) + LeadingOnes(ToBits(x, w)) == w
  {
    if w > 0 {
      CountOnes(x / 2, y / 2, w - 1);
      BitsSnoc(x, w);
      LeadingOnesSnoc(ToBits(x / 2, w - 1), x % 2 == 1);
    }
  }

  class BitReader {
    const data: seq<byte>
    var pos: nat
    var acc: u64
    var n: nat

    ghost predicate Valid()
      reads this
    {
      pos <= |data| && n <= 64
    }

    /** Every bit not yet read. */
    ghost function Unread(): seq<bool>
      requires Valid()
      reads this
    {
      ToBits(acc, n) + BytesBits(data[pos..])
    }

    constructor (data: seq<byte>)
      ensures Valid() && Unread() == BytesBits(data)
    {
      this.data, pos, acc, n := data, 0, 0, 0;
      new;
      assert data[0..] == data;
    }

    method Refill()
      requires Valid()
      modifies this
      ensures Valid() && Unread() == old(Unread())
      ensures n > 56 || pos == |data|
    {
      while n <= 56 && pos < |data|
        invariant Valid() && Unread() == old(Unread())
      {
        LoadByte(acc, n, data[pos]);
        BytesBitsAt(data, pos);
        acc, pos, n := Or(Shl(acc, 8), data[pos]), pos + 1, n + 8;
      }
    }

    method ReadBits(nbits: nat) returns (v: u64, ok: bool)
      requires Valid() && nbits <= 64
      modifies this
      ensures Valid()
      ensures ok <==> nbits <= |old(Unread())|
      ensures ok ==> v == FromBits(old(Unread())[..nbits]) && Unread() == old(Unread())[nbits..]
      decreases nbits
    {
      if nbits == 0 { return 0, true; }
      if nbits > 32 {
        ghost var all := Unread();
        var hi, okHi := ReadBits(nbits - 32);
        if !okHi { return 0, false; }
        ghost var rest := Unread();
        var lo, okLo := ReadBits(32);
        if okLo {
          JoinHalves(all[..nbits - 32], rest[..32]);
          assert all[..nbits] == all[..nbits - 32] + rest[..32];
          v := Or(Shl(hi, 32), lo);
        } else {
          v := 0;
        }
        return v, okLo;
      }
      v, ok := ReadShort(nbits);
    }

    /** ReadBits for a field that fits the accumulator beside a part of a byte. */
    method ReadShort(nbits: nat) returns (v: u64, ok: bool)
      requires Valid() && nbits <= 32
      modifies this
      ensures Valid()
      ensures ok <==> nbits <= |old(Unread())|
      ensures ok ==> v == FromBits(old(Unread())[..nbits]) && Unread() == old(Unread())[nbits..]
    {
      Refill();
      if n < nbits {
        assert data[pos..] == [];
        return 0, false;
      }
      TakeBits(acc, n - nbits, nbits);
      assert Unread()[..nbits] == ToBits(acc, n)[..nbits];
      v := And(Shr(acc, n - nbits), Pow2(nbits) - 1);
      Consume(nbits);
      return v, true;
    }

    /** Steps over m live bits. */
    method Consume(m: nat)
      requires Valid() && m <= n
      modifies this
      ensures Valid() && pos == old(pos) && acc == old(acc) && n == old(n) - m
      ensures Unread() == old(Unread())[m..]
    {
      BitsAfter(acc, n, m);
      n := n - m;
    }

    /** Consumes the ones at the front of the live bits, and the zero after them if they hold it. */
    method ReadRun() returns (ones: nat, zero: bool)
      requires Valid() && n > 0
      modifies this
      ensures Valid() && ones <= old(n)
      ensures zero ==> ones == LeadingOnes(old(Unread())) < |old(Unread())| && Unread() == old(Unread())[ones + 1..]
      ensures !zero ==> 0 < ones <= LeadingOnes(old(Unread())) && Unread() == old(Unread())[ones..]
    {
      ghost var low, rest := ToBits(acc, n), BytesBits(data[pos..]);
      TopOnes(acc, n);
      var valid := Shl(acc, 64 - n);
      ones := LeadingZeros64(Not(valid));
      if ones < n {
        LeadingOnesIs(low + rest, ones);
        Consume(ones + 1);
        return ones, true;
      }
      LeadingOnesDrop(low + rest, n);
      ones := n;
      Consume(n);
      return ones, false;
    }

    /** Counts the ones before the next zero and consumes that zero. */
    method ReadUnary() returns (q: u64, ok: bool)
      requires Valid() && |Unread()| < WORD
      modifies this
      ensures Valid()
      ensures ok <==> LeadingOnes(old(Unread())) < |old(Unread())|
      ensures ok ==> q == LeadingOnes(old(Unread())) && Unread() == old(Unread())[q + 1..]
    {
      ghost var all := Unread();
      q := 0;
      while true
        invariant Valid() && q <= LeadingOnes(all) && Unread() == all[q..]
        decreases |all| - q
      {
        LeadingOnesDrop(all, q);
        Refill();
        if n == 0 {
          assert data[pos..] == [];
          return 0, false;
        }
        var ones, zero := ReadRun();
        DropDrop(all, q, ones);
        if zero {
          DropDrop(all, q, ones + 1);
          return q + ones, true;
        }
        q := q + ones;
      }
    }
  }

  lemma {:induction false} LeadingOnesDrop(s: seq<bool>, q: nat)
    requires q <= |s| && forall i | 0 <= i < q :: s[i]
    ensures LeadingOnes(s) == q + LeadingOnes(s[q..])
  {
    LeadingOnesIs(s, q + LeadingOnes(s[q..]));
  }

  lemma DropDrop<T>(s: seq<T>, a: nat, b: nat)
    requires a + b <= |s|
    ensures s[a..][b..] == s[a + b..]
  {
  }

  /** The leading ones of the live bits, counted on the word they are shifted to the top of. */
  lemma {:induction false} TopOnes(acc: u64, n: nat)
    requires 0 < n <= 64
    ensures var ones := LeadingZeros64(Not(Shl(acc, 64 - n)));
            if ones < n then ones == LeadingOnes(ToBits(acc, n)) else LeadingOnes(ToBits(acc, n)) == n
  {
    var valid := Shl(acc, 64 - n);
    ShlIs(acc, 64 - n);
    BitsJoin(acc % Pow2(n), 0, n, 64 - n);
    BitsMod(acc, n, n);
    ZeroBits(64 - n);
    assert ToBits(valid, 64) == ToBits(acc, n) + Zeros(64 - n);
    Pow2Word();
    CountOnes(valid, Not(valid), 64);
    LeadingOnesIs(ToBits(valid, 64), LeadingOnes(ToBits(acc, n)));
  }

  lemma {:induction false} BitsAfter(acc: u64, n: nat, m: nat)
    requires m <= n
    ensures ToBits(acc, n)[m..] == ToBits(acc, n - m)
  {
    BitsSplit(acc, Shr(acc, n - m), m, n - m);
  }
}
