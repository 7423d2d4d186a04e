/**
 The first decompressed bytes of an LZ4 frame, read off its first literals without decoding, next
 to a decoder of the whole frame.

 The decoder follows the Frame Descriptor and Data Blocks sections of the LZ4 Frame Format
 Description and the LZ4 Block Format. It takes more frames than a strict one: checksums are not
 compared and block sizes not limited, so what is shown of every frame it takes holds of every
 well-formed frame.
 */
module Lz4Head {
  import opened Options
  import opened Words

  const MAGIC := 0x184D2204
  const UNCOMPRESSED := 0x8000_0000
  const LENGTH_EXTRA := 15
  const MIN_MATCH := 4

  function U32(s: seq<byte>): nat
    requires |s| >= 4
  {
    s[0] as int + 256 * (s[1] as int) + 65536 * (s[2] as int) + 16777216 * (s[3] as int)
  }

  // What the frame descriptor says.

  predicate Version1(flg: byte) { flg / 64 == 1 }
  predicate HasDictionary(flg: byte) { flg % 2 == 1 }
  predicate HasContentSize(flg: byte) { flg / 8 % 2 == 1 }
  predicate HasBlockChecksum(flg: byte) { flg / 16 % 2 == 1 }

  /** Magic, FLG, BD, perhaps the content size, and the header checksum. */
  function DescriptorSize(flg: byte): nat {
    if HasContentSize(flg) then 15 else 7
  }

  /** A length that goes on until a byte that is not 255: what it adds, and how many bytes it takes. */
  function Extended(s: seq<byte>): (r: Option<(nat, nat)>)
    ensures r.Some? ==> 1 <= r.value.1 <= |s|
  {
    if s == [] then None
    else if s[0] != 255 then Some((s[0] as nat, 1))
    else
      var rest := Extended(s[1..]);
      if rest.None? then None else Some((255 + rest.value.0, rest.value.1 + 1))
  }

  /** A length from half a token, and where in s the bytes after it start. */
  function Length(half: nat, s: seq<byte>): (r: Option<(nat, nat)>)
    ensures r.Some? ==> r.value.1 <= |s|
  {
    if half != LENGTH_EXTRA then Some((half, 0))
    else
      var more := Extended(s);
      if more.None? then None else Some((LENGTH_EXTRA + more.value.0, more.value.1))
  }

  // Decoding.

  /** A match: m bytes from offset back, which may reach into what the match itself writes. */
  function Copied(out: seq<byte>, offset: nat, m: nat): (r: seq<byte>)
    requires 1 <= offset <= |out|
    ensures out <= r
    decreases m
  {
    if m == 0 then out else Copied(out + [out[|out| - offset]], offset, m - 1)
  }

  /** The sequences of a block, after what was decoded before. The last has literals only. */
  function DecodeBlock(s: seq<byte>, out: seq<byte>): (r: Option<seq<byte>>)
    ensures r.Some? ==> out <= r.value
    decreases |s|
  {
    if s == [] then None else
    var lit := Length(s[0] / 16, s[1..]);
    if lit.None? then None else
    var start, end := 1 + lit.value.1, 1 + lit.value.1 + lit.value.0;
    if end > |s| then None else
    var out' := out + s[start..end];
    if end == |s| then Some(out') else
    if end + 2 > |s| then None else
    var offset := s[end] as int + 256 * (s[end + 1] as int);
    if offset == 0 || offset > |out'| then None else
    var match' := Length(s[0] % 16, s[end + 2..]);
    if match'.None? then None else
    DecodeBlock(s[end + 2 + match'.value.1..], Copied(out', offset, match'.value.0 + MIN_MATCH))
  }

  /** The blocks of a frame up to its end mark. */
  function DecodeBlocks(s: seq<byte>, flg: byte, out: seq<byte>): (r: Option<seq<byte>>)
    ensures r.Some? ==> out <= r.value
    decreases |s|
  {
    if |s| < 4 then None else
    var size := U32(s);
    if size == 0 then Some(out) else
    var n := if size >= UNCOMPRESSED then size - UNCOMPRESSED else size;
    var next := 4 + n + if HasBlockChecksum(flg) then 4 else 0;
    if next > |s| then None else
    var block := if size >= UNCOMPRESSED then Some(out + s[4..4 + n]) else DecodeBlock(s[4..4 + n], out);
    if block.None? then None else DecodeBlocks(s[next..], flg, block.value)
  }

  /** A frame of version 1 that needs no dictionary. */
  function DecodeFrame(s: seq<byte>): Option<seq<byte>> {
    if |s| < 7 || U32(s) != MAGIC || !Version1(s[4]) || HasDictionary(s[4]) || |s| < DescriptorSize(s[4]) then None
    else DecodeBlocks(s[DescriptorSize(s[4])..], s[4], [])
  }

  // The shortcut.

  function Min(a: nat, b: nat): nat {
    if a < b then a else b
  }

  /** The first literals of a block whose bytes start with s, as far as s goes. */
  function LeadOfBlock(s: seq<byte>, want: nat): (r: Option<seq<byte>>) {
    if s == [] then None else
    var lit := Length(s[0] / 16, s[1..]);
    if lit.None? || lit.value.0 == 0 then None else
    var start := 1 + lit.value.1;
    var avail := Min(|s| - start, lit.value.0);
    if avail == 0 then None else Some(s[start..start + Min(avail, want)])
  }

  /** lz4LeadingBytes. */
  function Leading(head: seq<byte>, want: nat): (r: Option<seq<byte>>) {
    if |head| < 7 || U32(head) != MAGIC || !Version1(head[4]) || HasDictionary(head[4]) then None else
    var p := DescriptorSize(head[4]);
    if |head| < p + 4 then None else
    var size := U32(head[p..]);
    if size == 0 then None else
    var s := head[p + 4..];
    if size >= UNCOMPRESSED then
      var avail := Min(|s|, size - UNCOMPRESSED);
      if avail == 0 then None else Some(s[..Min(avail, want)])
    else LeadOfBlock(s, want)
  }

  /** A length that was read from the start of some bytes reads the same from all of them. */
  lemma {:induction false} ExtendedOf(head: seq<byte>, s: seq<byte>)
    requires head <= s && Extended(head).Some?
    ensures Extended(s) == Extended(head)
  {
    if head[0] == 255 { ExtendedOf(head[1..], s[1..]); }
  }

  /** The first literals of a block are the first bytes it decodes to. */
  lemma {:induction false} LiteralsFirst(s: seq<byte>)
    requires DecodeBlock(s, []).Some?
    ensures s != [] && Length(s[0] / 16, s[1..]).Some?
    ensures var lit := Length(s[0] / 16, s[1..]).value;
            1 + lit.1 + lit.0 <= |s| && s[1 + lit.1..1 + lit.1 + lit.0] <= DecodeBlock(s, []).value
  {
    hide Length, Copied;
    var lit := Length(s[0] / 16, s[1..]).value;
    var first := s[1 + lit.1..1 + lit.1 + lit.0];
    assert [] + first == first;
  }

  /** The shortcut on a block agrees with decoding it, wherever either was cut. */
  lemma {:induction false} BlockLead(head: seq<byte>, s: seq<byte>, want: nat)
    requires (head <= s || s <= head) && LeadOfBlock(head, want).Some? && DecodeBlock(s, []).Some?
    ensures LeadOfBlock(head, want).value <= DecodeBlock(s, []).value && |LeadOfBlock(head, want).value| <= want
  {
    hide DecodeBlock, Length;
    LiteralsFirst(s);
    assert head[0] == s[0];
    LengthAgrees(head[1..], s[1..], s[0] / 16);
    var lit := Length(s[0] / 16, s[1..]).value;
    Within(head, s, 1 + lit.1, lit.0, LeadOfBlock(head, want).value);
  }

  /** What head shows of a part of s is the start of that part. */
  lemma Within(head: seq<byte>, s: seq<byte>, start: nat, n: nat, lead: seq<byte>)
    requires (head <= s || s <= head) && start + n <= |s| && |lead| <= n && start + |lead| <= |head|
    requires lead == head[start..start + |lead|]
    ensures lead <= s[start..start + n]
  {
  }

  lemma {:induction false} LengthAgrees(a: seq<byte>, b: seq<byte>, half: nat)
    requires (a <= b || b <= a) && Length(half, a).Some? && Length(half, b).Some?
    ensures Length(half, a) == Length(half, b)
  {
    if half == LENGTH_EXTRA {
      if a <= b { ExtendedOf(a, b); } else { ExtendedOf(b, a); }
    }
  }

  /** The first block of a frame, and what is decoded of it. */
  lemma {:induction false} FirstBlock(s: seq<byte>, flg: byte)
    requires DecodeBlocks(s, flg, []).Some? && |s| >= 4 && U32(s) != 0
    ensures var size := U32(s); var out := DecodeBlocks(s, flg, []).value;
            if size >= UNCOMPRESSED then 4 + size - UNCOMPRESSED <= |s| && s[4..4 + size - UNCOMPRESSED] <= out
            else 4 + size <= |s| && DecodeBlock(s[4..4 + size], []).Some? && DecodeBlock(s[4..4 + size], []).value <= out
  {
    hide DecodeBlock, U32;
    var size := U32(s);
    if size >= UNCOMPRESSED {
      var n := size - UNCOMPRESSED;
      assert [] + s[4..4 + n] == s[4..4 + n];
    }
  }

  lemma U32Of(head: seq<byte>, s: seq<byte>)
    requires head <= s && |head| >= 4
    ensures U32(head) == U32(s)
  {
  }

  /**
   Whatever part of a frame the head is, the bytes the shortcut answers are the first bytes of
   what the frame decodes to.
   */
  lemma {:induction false} LeadingIsPrefix(frame: seq<byte>, head: seq<byte>, want: nat)
    requires head <= frame && DecodeFrame(frame).Some? && Leading(head, want).Some?
    ensures Leading(head, want).value <= DecodeFrame(frame).value && |Leading(head, want).value| <= want
  {
    hide DecodeBlocks, DecodeBlock, LeadOfBlock, U32;
    var flg := head[4];
    var p := DescriptorSize(flg);
    U32Of(head, frame);
    var h, s := head[p..], frame[p..];
    assert head[4] == frame[4];
    U32Of(h, s);
    FirstBlock(s, flg);
    var size := U32(s);
    if size >= UNCOMPRESSED {
      Within(h, s, 4, size - UNCOMPRESSED, Leading(head, want).value);
    } else {
      assert head[p + 4..] == h[4..];
      CutAgrees(h, s, 4, size);
      BlockLead(h[4..], s[4..4 + size], want);
    }
  }

  lemma CutAgrees(h: seq<byte>, s: seq<byte>, start: nat, n: nat)
    requires h <= s && start + n <= |s| && start <= |h|
    ensures h[start..] <= s[start..start + n] || s[start..start + n] <= h[start..]
  {
  }

  /** lz4LeadingBytes, with its cursor. */
  method LeadingBytes(head: seq<byte>, want: nat) returns (lead: seq<byte>, ok: bool)
    ensures ok <==> Leading(head, want).Some?
    ensures ok ==> lead == Leading(head, want).value
  {
    hide LeadOfBlock, U32;
    lead := [];
    if |head| < 7 { return lead, false; }
    if U32(head) != MAGIC { return lead, false; }
    var p := 4;
    var flg := head[p];
    p := p + 2;
    if flg / 64 != 1 { return lead, false; }
    if flg % 2 != 0 { return lead, false; }
    if flg / 8 % 2 != 0 { p := p + 8; }
    p := p + 1;
    if |head| - p < 4 { return lead, false; }
    var blockSize := U32(head[p..]);
    p := p + 4;
    if blockSize == 0 { return lead, false; }
    var avail := |head| - p;
    if blockSize >= UNCOMPRESSED {
      var n := blockSize - UNCOMPRESSED;
      if avail > n { avail := n; }
      if avail == 0 { return lead, false; }
      return head[p..p + Min(avail, want)], true;
    }
    lead, ok := FirstLiterals(head, p, want);
  }

  /** lz4LeadingBytes, from the token of a compressed block on. */
  method FirstLiterals(head: seq<byte>, from: nat, want: nat) returns (lead: seq<byte>, ok: bool)
    requires from <= |head|
    ensures ok <==> LeadOfBlock(head[from..], want).Some?
    ensures ok ==> lead == LeadOfBlock(head[from..], want).value
  {
    hide Extended;
    lead := [];
    var p := from;
    var avail := |head| - p;
    if avail < 1 { return lead, false; }
    var token := head[p];
    p := p + 1;
    assert head[from..][1..] == head[p..];
    var litLen: nat := token / 16;
    if litLen == LENGTH_EXTRA {
      var more, width, whole := ReadExtended(head, p);
      if !whole { return lead, false; }
      litLen, p := litLen + more, p + width;
    }
    if litLen == 0 { return lead, false; }
    avail := |head| - p;
    if avail > litLen { avail := litLen; }
    if avail == 0 { return lead, false; }
    lead, ok := head[p..p + Min(avail, want)], true;
    assert lead == head[from..][p - from..p - from + Min(avail, want)];
  }

  /** The loop over length bytes. */
  method ReadExtended(head: seq<byte>, from: nat) returns (more: nat, width: nat, whole: bool)
    requires from <= |head|
    ensures whole <==> Extended(head[from..]).Some?
    ensures whole ==> Extended(head[from..]) == Some((more, width))
  {
    var p := from;
    more := 0;
    while true
      invariant from <= p <= |head|
      invariant var rest := Extended(head[p..]);
                Extended(head[from..]) == if rest.None? then None else Some((more + rest.value.0, p - from + rest.value.1))
      decreases |head| - p
    {
      if |head| - p < 1 { return more, p - from, false; }
      var b := head[p];
      assert head[p..][1..] == head[p + 1..];
      p := p + 1;
      more := more + b;
      if b != 255 { return more, p - from, true; }
    }
  }

  /** lz4HasPrefix. */
  method HasPrefix(head: seq<byte>, want: seq<byte>) returns (match': bool, decided: bool)
    ensures (match', decided) == Verdict(head, want)
  {
    var lead, ok := LeadingBytes(head, |want|);
    if !ok { return false, false; }
    if |lead| >= |want| { return lead[..|want|] == want, true; }
    if want[..|lead|] != lead { return false, true; }
    return false, false;
  }

  function Verdict(head: seq<byte>, want: seq<byte>): (bool, bool) {
    var lead := Leading(head, |want|);
    if lead.None? then (false, false)
    else if |lead.value| >= |want| then (lead.value[..|want|] == want, true)
    else (false, want[..|lead.value|] != lead.value)
  }

  /** Every verdict the shortcut gives is the one decoding the frame gives. */
  lemma {:induction false} VerdictIsTrue(frame: seq<byte>, head: seq<byte>, want: seq<byte>)
    requires head <= frame && DecodeFrame(frame).Some? && Verdict(head, want).1
    ensures Verdict(head, want).0 <==> want <= DecodeFrame(frame).value
  {
    hide DecodeFrame, Leading;
    LeadingIsPrefix(frame, head, |want|);
    var lead, out := Leading(head, |want|).value, DecodeFrame(frame).value;
    if |lead| >= |want| {
      assert lead[..|want|] == out[..|want|];
    } else {
      assert out[..|lead|] == lead;
    }
  }
}
