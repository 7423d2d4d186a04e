/**
 What the LZ4 shortcut shows: of a frame as an encoder lays it out, cut anywhere, exactly the first
 literals that are left of it.
 */
module Lz4Shown {
  import Words
  import opened Options
  import opened Lz4Head

  /** A 32-bit number, least significant byte first. */
  function LE4(v: nat): (r: seq<Words.byte>)
    requires v < 0x1_0000_0000
    ensures |r| == 4 && U32(r) == v
  {
    var v1 := v / 256;
    var v2 := v1 / 256;
    [v % 256, v1 % 256, v2 % 256, v2 / 256]
  }

  /** A frame header of version 1 without a dictionary: magic, flags, block descriptor, size if there is one, checksum. */
  predicate IsHeader(header: seq<Words.byte>) {
    && |header| >= 7 && header[..4] == [0x04, 0x22, 0x4D, 0x18]
    && header[4] / 64 == 1 && header[4] % 2 == 0 && |header| == if header[4] / 8 % 2 == 1 then 15 else 7
  }

  function Least(a: nat, b: nat, c: nat): nat {
    Min(a, Min(b, c))
  }

  /** The parts of what a cut leaves. */
  lemma CutParts(a: seq<Words.byte>, b: seq<Words.byte>, c: seq<Words.byte>, cut: nat)
    requires |a| + |b| <= cut <= |a| + |b| + |c|
    ensures var t := (a + b + c)[..cut];
            t[..|a|] == a && t[|a|..|a| + |b|] == b && t[|a| + |b|..] == c[..cut - |a| - |b|]
  {
  }

  lemma FourBytes(s: seq<Words.byte>, p: nat, v: nat)
    requires p + 4 <= |s| && v < 0x1_0000_0000 && s[p..p + 4] == LE4(v)
    ensures U32(s[p..]) == v
  {
    hide LE4;
    var four := s[p..p + 4];
    assert s[p..][0] == four[0] && s[p..][1] == four[1] && s[p..][2] == four[2] && s[p..][3] == four[3];
  }

  lemma MagicIs(header: seq<Words.byte>, head: seq<Words.byte>)
    requires IsHeader(header) && |head| >= 7 && (forall i | 0 <= i < 5 :: head[i] == header[i])
    ensures U32(head) == MAGIC && head[4] == header[4] && Version1(head[4]) && !HasDictionary(head[4])
    ensures DescriptorSize(head[4]) == |header|
  {
    var four := header[..4];
    assert four[0] == 4 && four[1] == 0x22 && four[2] == 0x4D && four[3] == 0x18;
    assert forall i | 0 <= i < 4 :: head[i] == four[i];
  }

  /** Where a head of a frame is past its header and the size of its first block. */
  lemma {:induction false} HeadOf(header: seq<Words.byte>, size: nat, block: seq<Words.byte>, cut: nat, want: nat)
    requires IsHeader(header) && 0 < size < 0x1_0000_0000 && cut <= |header + LE4(size) + block|
    ensures var head := (header + LE4(size) + block)[..cut];
            Leading(head, want) ==
            if cut < |header| + 4 then None
            else if size >= 0x8000_0000 then
              (var avail := Min(cut - |header| - 4, size - 0x8000_0000);
               if avail == 0 then None else Some(block[..cut - |header| - 4][..Min(avail, want)]))
            else LeadOfBlock(block[..cut - |header| - 4], want)
  {
    hide LeadOfBlock, LE4, IsHeader, U32, Version1, HasDictionary, DescriptorSize;
    var head, p := (header + LE4(size) + block)[..cut], |header|;
    HeaderLength(header);
    if cut >= 7 { MagicIs(header, head); }
    if cut >= p + 4 {
      CutParts(header, LE4(size), block, cut);
      FourBytes(head, p, size);
    }
  }

  lemma HeaderLength(header: seq<Words.byte>)
    requires IsHeader(header)
    ensures |header| >= 7
  {
  }

  /** A first block that is stored uncompressed is shown as far as the head goes. */
  lemma {:induction false} StoredIsShown(header: seq<Words.byte>, data: seq<Words.byte>, rest: seq<Words.byte>, cut: nat,
                                         want: nat)
    requires IsHeader(header) && |data| < 0x8000_0000 && cut <= |header + LE4(0x8000_0000 + |data|) + (data + rest)|
    ensures var head := (header + LE4(0x8000_0000 + |data|) + (data + rest))[..cut];
            Leading(head, want) == if cut <= |header| + 4 || data == [] then None
                                   else Some(data[..Least(cut - |header| - 4, |data|, want)])
  {
    HeadOf(header, 0x8000_0000 + |data|, data + rest, cut, want);
    if cut >= |header| + 4 {
      var n := cut - |header| - 4;
      var m := Least(n, |data|, want);
      assert (data + rest)[..n][..m] == data[..m];
    }
  }

  // Compressed blocks.

  /** A length from 15 on, as the bytes after the token: 255 as often as it fits, and what is left. */
  function ExtBytes(n: nat): (r: seq<Words.byte>)
    ensures |r| >= 1
  {
    if n < 255 then [n] else [255] + ExtBytes(n - 255)
  }

  /** The token of a sequence with n literals, and the rest of their number. */
  function Start(n: nat, low: nat): (r: seq<Words.byte>)
    requires low < 16
    ensures |r| >= 1
  {
    if n < 15 then [16 * n + low] else [240 + low] + ExtBytes(n - 15)
  }

  lemma {:induction false} ExtReads(n: nat, tail: seq<Words.byte>)
    ensures Extended(ExtBytes(n) + tail) == Some((n, |ExtBytes(n)|))
  {
    if n >= 255 {
      ExtReads(n - 255, tail);
      assert (ExtBytes(n) + tail)[1..] == ExtBytes(n - 255) + tail;
    }
  }

  lemma {:induction false} ExtCut(n: nat, cut: nat)
    requires cut < |ExtBytes(n)|
    ensures Extended(ExtBytes(n)[..cut]).None?
  {
    if cut > 0 {
      ExtCut(n - 255, cut - 1);
      assert ExtBytes(n)[..cut][1..] == ExtBytes(n - 255)[..cut - 1];
    }
  }

  /** A block that starts with n literals, cut anywhere. */
  lemma {:induction false} BlockIsShown(literals: seq<Words.byte>, low: nat, more: seq<Words.byte>, cut: nat, want: nat)
    requires low < 16 && cut <= |Start(|literals|, low) + literals + more|
    ensures var start := Start(|literals|, low);
            LeadOfBlock((start + literals + more)[..cut], want) ==
            if cut <= |start| || literals == [] then None
            else Some(literals[..Least(cut - |start|, |literals|, want)])
  {
    hide Start, Length;
    var start := Start(|literals|, low);
    var s := (start + literals + more)[..cut];
    StartReads(literals, low, more, cut);
    if cut > |start| { ShownFrom(start, literals, more, cut, Least(cut - |start|, |literals|, want)); }
  }

  lemma ShownFrom(start: seq<Words.byte>, literals: seq<Words.byte>, more: seq<Words.byte>, cut: nat, m: nat)
    requires |start| + m <= cut <= |start + literals + more| && m <= |literals|
    ensures (start + literals + more)[..cut][|start|..|start| + m] == literals[..m]
  {
  }

  /** The number of literals reads back once its bytes are all there. */
  lemma {:induction false} StartReads(literals: seq<Words.byte>, low: nat, more: seq<Words.byte>, cut: nat)
    requires low < 16 && cut <= |Start(|literals|, low) + literals + more|
    ensures var start := Start(|literals|, low); var s := (start + literals + more)[..cut];
            cut > 0 ==> Length(s[0] / 16, s[1..]) == if cut < |start| then None else Some((|literals|, |start| - 1))
  {
    hide ExtBytes, Extended;
    var n := |literals|;
    var start := Start(n, low);
    var s := (start + literals + more)[..cut];
    if cut > 0 {
      assert s[0] == start[0];
      if n >= 15 {
        if cut < |start| {
          assert s[1..] == ExtBytes(n - 15)[..cut - 1];
          ExtCut(n - 15, cut - 1);
        } else {
          assert s[1..] == ExtBytes(n - 15) + s[|start|..];
          ExtReads(n - 15, s[|start|..]);
        }
      }
    }
  }

  /** A first block that is compressed shows its first literals as far as the head goes. */
  lemma {:induction false} LiteralsAreShown(header: seq<Words.byte>, literals: seq<Words.byte>, low: nat,
                                            more: seq<Words.byte>, size: nat, cut: nat, want: nat)
    requires IsHeader(header) && low < 16 && 0 < size < 0x8000_0000
    requires cut <= |header + LE4(size) + (Start(|literals|, low) + literals + more)|
    ensures var start := Start(|literals|, low);
            var head, at := (header + LE4(size) + (start + literals + more))[..cut], |header| + 4 + |start|;
            Leading(head, want) == if cut <= at || literals == [] then None
                                   else Some(literals[..Least(cut - at, |literals|, want)])
  {
    hide LeadOfBlock, Leading, Start;
    var block := Start(|literals|, low) + literals + more;
    HeadOf(header, size, block, cut, want);
    if cut >= |header| + 4 { BlockIsShown(literals, low, more, cut - |header| - 4, want); }
  }

  /** With as many bytes shown as are asked for, the verdict is given, and it is that of the bytes. */
  lemma {:induction false} ShownIsDecided(head: seq<Words.byte>, want: seq<Words.byte>, shown: seq<Words.byte>)
    requires Leading(head, |want|) == Some(shown)
    ensures |shown| >= |want| ==> Verdict(head, want) == (shown[..|want|] == want, true)
    ensures |shown| < |want| ==> Verdict(head, want) == (false, !(shown <= want))
  {
    hide Leading;
    if |shown| < |want| { assert shown <= want <==> want[..|shown|] == shown; }
  }
}
