/**
 An object's attributes on disk: two string maps as length-prefixed pairs.
 */
module ObjAttrs {
  import opened Words
  import Prefixes

  /** A string, as its bytes. */
  type Str = seq<byte>

  datatype Attrs = Attrs(meta: map<Str, Str>, audit: map<Str, Str>)

  datatype Result<T> = Ok(value: T) | Corrupt

  const VERSION: byte := 1
  const MAX_VARINT := 10

  // Varints, seven bits a byte, least significant first.

  function PutUvarint(x: nat): (r: seq<byte>)
    ensures |r| >= 1
  {
    if x < 128 then [x] else [x % 128 + 128] + PutUvarint(x / 128)
  }

  /** A varint at the start of buf, of which i bytes were read before: its value and its width. */
  function GetUvarint(buf: seq<byte>, i: nat): (r: Result<(nat, nat)>)
    ensures r.Ok? ==> 1 <= r.value.1 <= |buf|
  {
    if buf == [] || i >= MAX_VARINT then Corrupt
    else if buf[0] < 128 then (if i == MAX_VARINT - 1 && buf[0] > 1 then Corrupt else Ok((buf[0] as nat, 1)))
    else
      var rest := GetUvarint(buf[1..], i + 1);
      if rest.Corrupt? then Corrupt else Ok((buf[0] - 128 + 128 * rest.value.0, rest.value.1 + 1))
  }

  /** What is left of a 64-bit value after i groups of seven bits. */
  function Room(i: nat): nat
    requires i < MAX_VARINT
    decreases MAX_VARINT - i
  {
    if i == 9 then 2 else 128 * Room(i + 1)
  }

  lemma {:induction false} UvarintRoundTrip(x: nat, tail: seq<byte>, i: nat)
    requires i < MAX_VARINT && x < Room(i)
    ensures GetUvarint(PutUvarint(x) + tail, i) == Ok((x, |PutUvarint(x)|))
    decreases MAX_VARINT - i
  {
    var p := PutUvarint(x);
    if x < 128 {
      assert (p + tail)[0] == x;
    } else {
      UvarintRoundTrip(x / 128, tail, i + 1);
      assert (p + tail)[1..] == PutUvarint(x / 128) + tail;
    }
  }

  lemma WordRoom()
    ensures Room(0) == WORD
  {
    assert Room(8) == 128 * Room(9);
    assert Room(6) == 128 * 128 * Room(8);
    assert Room(4) == 128 * 128 * Room(6);
    assert Room(2) == 128 * 128 * Room(4);
    assert Room(0) == 128 * 128 * Room(2);
  }

  // Strings and pairs.

  function Text(s: Str): seq<byte> {
    PutUvarint(|s|) + s
  }

  /** readUvarintString: a string at the start of buf, and what follows it. */
  function ReadText(buf: seq<byte>): (r: Result<(Str, seq<byte>)>)
    ensures r.Ok? ==> |r.value.1| < |buf|
  {
    var n := GetUvarint(buf, 0);
    if n.Corrupt? || |buf| - n.value.1 < n.value.0 then Corrupt
    else
      var end := n.value.1 + n.value.0;
      Ok((buf[n.value.1..end], buf[end..]))
  }

  lemma {:induction false} TextRoundTrip(s: Str, tail: seq<byte>)
    requires |s| < WORD
    ensures ReadText(Text(s) + tail) == Ok((s, tail))
  {
    hide GetUvarint, PutUvarint, Room;
    WordRoom();
    assert Text(s) + tail == PutUvarint(|s|) + (s + tail);
    UvarintRoundTrip(|s|, s + tail, 0);
  }

  function Pairs(keys: seq<Str>, kv: map<Str, Str>): seq<byte>
    requires forall k | k in keys :: k in kv
  {
    if keys == [] then [] else
    var n := |keys| - 1;
    assert keys[n] in keys;
    Pairs(keys[..n], kv) + Text(keys[n]) + Text(kv[keys[n]])
  }

  /** decodePairs: a later pair of a key replaces an earlier one. */
  function ReadPairs(buf: seq<byte>, count: nat, out: map<Str, Str>): Result<(map<Str, Str>, seq<byte>)>
    decreases count
  {
    if count == 0 then Ok((out, buf)) else
    var key := ReadText(buf);
    if key.Corrupt? then Corrupt else
    var val := ReadText(key.value.1);
    if val.Corrupt? then Corrupt else
    ReadPairs(val.value.1, count - 1, out[key.value.0 := val.value.0])
  }

  ghost predicate Short(kv: map<Str, Str>) {
    |kv| < WORD && forall k | k in kv :: |k| < WORD && |kv[k]| < WORD
  }

  /** keys lists the keys of kv, each once. */
  ghost predicate Lists(keys: seq<Str>, kv: map<Str, Str>) {
    && (forall k :: k in keys <==> k in kv)
    && (forall i, j | 0 <= i < j < |keys| :: keys[i] != keys[j])
  }

  /** The pairs from position i on. */
  function PairsFrom(keys: seq<Str>, kv: map<Str, Str>, i: nat): seq<byte>
    requires i <= |keys| && forall k | k in keys :: k in kv
    decreases |keys| - i
  {
    if i == |keys| then [] else
    assert keys[i] in keys;
    Text(keys[i]) + (Text(kv[keys[i]]) + PairsFrom(keys, kv, i + 1))
  }

  lemma {:induction false} PairsSplit(keys: seq<Str>, kv: map<Str, Str>, i: nat)
    requires i <= |keys| && forall k | k in keys :: k in kv
    ensures (forall k | k in keys[..i] :: k in kv) && Pairs(keys, kv) == Pairs(keys[..i], kv) + PairsFrom(keys, kv, i)
    decreases |keys| - i
  {
    hide Text;
    assert forall k | k in keys[..i] :: k in keys;
    if i == |keys| {
      assert keys[..i] == keys;
    } else {
      PairsSplit(keys, kv, i + 1);
      assert keys[..i + 1][..i] == keys[..i];
    }
  }

  /** The first i keys of a map. */
  ghost function Some(kv: map<Str, Str>, keys: seq<Str>): map<Str, Str> {
    map k | k in kv && k in keys :: kv[k]
  }

  lemma {:induction false} PairsRoundTrip(keys: seq<Str>, kv: map<Str, Str>, i: nat, tail: seq<byte>)
    requires i <= |keys| && Lists(keys, kv) && Short(kv)
    ensures ReadPairs(PairsFrom(keys, kv, i) + tail, |keys| - i, Some(kv, keys[..i])) == Ok((kv, tail))
    decreases |keys| - i
  {
    hide Text, ReadText, Some;
    if i == |keys| {
      SomeIsAll(keys, kv);
      assert keys[..i] == keys && [] + tail == tail;
    } else {
      var k := keys[i];
      assert k in keys;
      var rest := PairsFrom(keys, kv, i + 1) + tail;
      Regrouped(Text(k), Text(kv[k]), PairsFrom(keys, kv, i + 1), tail);
      TextRoundTrip(k, Text(kv[k]) + rest);
      TextRoundTrip(kv[k], rest);
      SomeNext(keys, kv, i);
      PairsRoundTrip(keys, kv, i + 1, tail);
    }
  }

  lemma Regrouped(a: seq<byte>, b: seq<byte>, c: seq<byte>, d: seq<byte>)
    ensures a + (b + c) + d == a + (b + (c + d))
  {
  }

  lemma SomeIsAll(keys: seq<Str>, kv: map<Str, Str>)
    requires Lists(keys, kv)
    ensures Some(kv, keys) == kv
  {
  }

  lemma SomeNext(keys: seq<Str>, kv: map<Str, Str>, i: nat)
    requires i < |keys| && keys[i] in kv
    ensures Some(kv, keys[..i])[keys[i] := kv[keys[i]]] == Some(kv, keys[..i + 1])
  {
    assert keys[..i + 1] == keys[..i] + [keys[i]];
  }

  /** Each pair takes two bytes or more. */
  lemma {:induction false} PairsLength(keys: seq<Str>, kv: map<Str, Str>)
    requires forall k | k in keys :: k in kv
    ensures |Pairs(keys, kv)| >= 2 * |keys|
  {
    hide PutUvarint;
    if keys != [] { PairsLength(keys[..|keys| - 1], kv); }
  }

  lemma {:induction false} ListSize(keys: seq<Str>, kv: map<Str, Str>)
    requires Lists(keys, kv)
    ensures |keys| == |kv|
  {
    SetSize(keys, kv.Keys);
  }

  lemma {:induction false} SetSize(keys: seq<Str>, all: set<Str>)
    requires forall k :: k in keys <==> k in all
    requires forall i, j | 0 <= i < j < |keys| :: keys[i] != keys[j]
    ensures |keys| == |all|
    decreases |keys|
  {
    if keys == [] {
      assert all == {};
    } else {
      var n := |keys| - 1;
      assert keys[n] in all;
      forall k
        ensures k in keys[..n] <==> k in all - {keys[n]}
      {
        if k in all - {keys[n]} { assert k in keys; }
      }
      SetSize(keys[..n], all - {keys[n]});
    }
  }

  function Encode(a: Attrs, meta: seq<Str>, audit: seq<Str>): seq<byte>
    requires (forall k | k in meta :: k in a.meta) && (forall k | k in audit :: k in a.audit)
  {
    [VERSION] + PutUvarint(|a.meta|) + PutUvarint(|a.audit|) + Pairs(meta, a.meta) + Pairs(audit, a.audit)
  }

  /** decodeObjAttrs. Sums of counts wrap as the source's words do. */
  function Decode(buf: seq<byte>): Result<Attrs> {
    if buf == [] || buf[0] != VERSION then Corrupt else
    var buf := buf[1..];
    var nMeta := GetUvarint(buf, 0);
    if nMeta.Corrupt? then Corrupt else
    var buf := buf[nMeta.value.1..];
    var nAudit := GetUvarint(buf, 0);
    if nAudit.Corrupt? then Corrupt else
    DecodeBody(buf[nAudit.value.1..], nMeta.value.0, nAudit.value.0)
  }

  function DecodeBody(buf: seq<byte>, nMeta: nat, nAudit: nat): Result<Attrs> {
    if nMeta > |buf| || nAudit > |buf| || (nMeta + nAudit) * 2 % WORD > |buf| then Corrupt else
    var meta := ReadPairs(buf, nMeta, map[]);
    if meta.Corrupt? then Corrupt else
    var audit := ReadPairs(meta.value.1, nAudit, map[]);
    if audit.Corrupt? || audit.value.1 != [] then Corrupt else
    Ok(Attrs(meta.value.0, audit.value.0))
  }

  lemma GuardPasses(m: nat, n: nat, length: nat)
    requires 2 * m + 2 * n <= length
    ensures m <= length && n <= length && (m + n) * 2 % WORD <= length
  {
  }

  lemma {:induction false} BodyRoundTrip(a: Attrs, meta: seq<Str>, audit: seq<Str>)
    requires Lists(meta, a.meta) && Lists(audit, a.audit) && Short(a.meta) && Short(a.audit)
    ensures DecodeBody(Pairs(meta, a.meta) + Pairs(audit, a.audit), |a.meta|, |a.audit|) == Ok(a)
  {
    hide ReadPairs, Pairs, Lists, Short;
    ListSize(meta, a.meta);
    ListSize(audit, a.audit);
    Covered(meta, a.meta);
    Covered(audit, a.audit);
    PairsLength(meta, a.meta);
    PairsLength(audit, a.audit);
    GuardPasses(|a.meta|, |a.audit|, |Pairs(meta, a.meta) + Pairs(audit, a.audit)|);
    WholeRoundTrip(meta, a.meta, Pairs(audit, a.audit));
    WholeRoundTrip(audit, a.audit, []);
    assert Pairs(audit, a.audit) + [] == Pairs(audit, a.audit);
  }

  lemma {:induction false} DecodesHead(x: seq<byte>, y: seq<byte>, body: seq<byte>, m: nat, n: nat)
    requires GetUvarint(x + (y + body), 0) == Ok((m, |x|)) && GetUvarint(y + body, 0) == Ok((n, |y|))
    ensures Decode([VERSION] + (x + (y + body))) == DecodeBody(body, m, n)
  {
    hide GetUvarint, DecodeBody;
    var buf := [VERSION] + (x + (y + body));
    assert buf[1..] == x + (y + body);
    assert (x + (y + body))[|x|..] == y + body;
    assert (y + body)[|y|..] == body;
  }

  /** Decoding inverts encoding, for every pair of maps; the count guard rejects no encoding. */
  lemma {:induction false} RoundTrip(a: Attrs, meta: seq<Str>, audit: seq<Str>)
    requires Lists(meta, a.meta) && Lists(audit, a.audit) && Short(a.meta) && Short(a.audit)
    ensures Decode(Encode(a, meta, audit)) == Ok(a)
  {
    hide GetUvarint, PutUvarint, Room, Decode, DecodeBody, Pairs, Lists;
    WordRoom();
    assert (forall k | k in meta :: k in a.meta) && (forall k | k in audit :: k in a.audit)
    by {
      Covered(meta, a.meta);
      Covered(audit, a.audit);
    }
    var x, y := PutUvarint(|a.meta|), PutUvarint(|a.audit|);
    var body := Pairs(meta, a.meta) + Pairs(audit, a.audit);
    UvarintRoundTrip(|a.meta|, y + body, 0);
    UvarintRoundTrip(|a.audit|, body, 0);
    DecodesHead(x, y, body, |a.meta|, |a.audit|);
    BodyRoundTrip(a, meta, audit);
    Joined([VERSION], x, y, Pairs(meta, a.meta), Pairs(audit, a.audit));
  }

  lemma Joined(a: seq<byte>, b: seq<byte>, c: seq<byte>, d: seq<byte>, e: seq<byte>)
    ensures a + b + c + d + e == a + (b + (c + (d + e)))
  {
  }

  lemma Covered(keys: seq<Str>, kv: map<Str, Str>)
    requires Lists(keys, kv)
    ensures forall k | k in keys :: k in kv
  {
  }

  lemma {:induction false} WholeRoundTrip(keys: seq<Str>, kv: map<Str, Str>, tail: seq<byte>)
    requires Lists(keys, kv) && Short(kv)
    ensures ReadPairs(Pairs(keys, kv) + tail, |kv|, map[]) == Ok((kv, tail))
  {
    hide ReadPairs;
    ListSize(keys, kv);
    PairsSplit(keys, kv, 0);
    assert Pairs(keys[..0], kv) == [];
    PairsRoundTrip(keys, kv, 0, tail);
    assert Some(kv, keys[..0]) == map[];
    assert [] + PairsFrom(keys, kv, 0) == PairsFrom(keys, kv, 0);
  }

  // The order the keys are written in.

  ghost predicate Ordered(keys: seq<Str>) {
    forall i, j | 0 <= i < j < |keys| :: Prefixes.LexLess(keys[i], keys[j])
  }

  lemma {:induction false} LexTransitive(a: Str, b: Str, c: Str)
    requires Prefixes.LexLess(a, b) && Prefixes.LexLess(b, c)
    ensures Prefixes.LexLess(a, c)
  {
    if a != [] && a[0] == b[0] == c[0] { LexTransitive(a[1..], b[1..], c[1..]); }
  }

  /** Of two strings one is less, or they are the same. */
  lemma {:induction false} LexTotal(a: Str, b: Str)
    ensures Prefixes.LexLess(a, b) || Prefixes.LexLess(b, a) || a == b
    ensures !(Prefixes.LexLess(a, b) && Prefixes.LexLess(b, a)) && (Prefixes.LexLess(a, b) ==> a != b)
  {
    if a != [] && b != [] && a[0] == b[0] {
      LexTotal(a[1..], b[1..]);
      assert a == [a[0]] + a[1..] && b == [b[0]] + b[1..];
    }
  }

  function Inserted(k: Str, keys: seq<Str>): (r: seq<Str>)
    ensures |r| == |keys| + 1 && forall x :: x in r <==> x == k || x in keys
  {
    if keys == [] || Prefixes.LexLess(k, keys[0]) then [k] + keys else [keys[0]] + Inserted(k, keys[1..])
  }

  lemma {:induction false} InsertedOrdered(k: Str, keys: seq<Str>)
    requires Ordered(keys) && k !in keys
    ensures Ordered(Inserted(k, keys))
  {
    hide Prefixes.LexLess;
    if keys != [] {
      LexTotal(k, keys[0]);
      if Prefixes.LexLess(k, keys[0]) {
        forall j | 0 < j < |keys|
          ensures Prefixes.LexLess(k, keys[j])
        {
          LexTransitive(k, keys[0], keys[j]);
        }
      } else {
        var rest := Inserted(k, keys[1..]);
        InsertedOrdered(k, keys[1..]);
        forall j | 0 <= j < |rest|
          ensures Prefixes.LexLess(keys[0], rest[j])
        {
          assert rest[j] in rest;
          if rest[j] != k {
            assert rest[j] in keys[1..];
            var i :| 1 <= i < |keys| && keys[i] == rest[j];
          }
        }
      }
    }
  }

  /** The keys of a map in order, as the source sorts them. */
  method SortedKeys(kv: map<Str, Str>) returns (keys: seq<Str>)
    ensures Lists(keys, kv) && Ordered(keys)
  {
    hide Prefixes.LexLess;
    keys := [];
    var left := kv.Keys;
    while left != {}
      invariant left <= kv.Keys && Ordered(keys) && forall k :: k in keys <==> k in kv && k !in left
      decreases |left|
    {
      var k: Str :| k in left;
      InsertedOrdered(k, keys);
      keys, left := Inserted(k, keys), left - {k};
    }
    OrderedDistinct(keys);
  }

  lemma {:induction false} OrderedDistinct(keys: seq<Str>)
    requires Ordered(keys)
    ensures forall i, j | 0 <= i < j < |keys| :: keys[i] != keys[j]
  {
    hide Prefixes.LexLess;
    forall i, j | 0 <= i < j < |keys|
      ensures keys[i] != keys[j]
    {
      LexTotal(keys[i], keys[j]);
    }
  }

  /** A map has one such order, so an encoding depends only on what is encoded. */
  lemma {:induction false} OrderIsUnique(a: seq<Str>, b: seq<Str>)
    requires Ordered(a) && Ordered(b) && forall k :: k in a <==> k in b
    ensures a == b
  {
    hide Prefixes.LexLess;
    if b != [] { assert b[0] in b; }
    if a != [] {
      assert a[0] in b;
      FirstIsFirst(a, b);
      OrderedDistinct(a);
      OrderedDistinct(b);
      forall k
        ensures k in a[1..] <==> k in b[1..]
      {
        assert k in a <==> k == a[0] || k in a[1..];
        assert k in b <==> k == b[0] || k in b[1..];
      }
      OrderIsUnique(a[1..], b[1..]);
      assert a == [a[0]] + a[1..] && b == [b[0]] + b[1..];
    }
  }

  lemma {:induction false} FirstIsFirst(a: seq<Str>, b: seq<Str>)
    requires Ordered(a) && Ordered(b) && a != [] && b != [] && a[0] in b && b[0] in a
    ensures a[0] == b[0]
  {
    hide Prefixes.LexLess;
    LexTotal(a[0], b[0]);
    var i :| 0 <= i < |b| && b[i] == a[0];
    var j :| 0 <= j < |a| && a[j] == b[0];
  }

  /** What encodeObjAttrs writes for a; OrderIsUnique says there is only one. */
  ghost predicate EncodingOf(buf: seq<byte>, a: Attrs) {
    exists meta, audit :: Lists(meta, a.meta) && Lists(audit, a.audit) && Ordered(meta) && Ordered(audit)
      && buf == Encode(a, meta, audit)
  }

  // The codec as the source runs it.

  /** appendKV. */
  method AppendKV(buf: seq<byte>, kv: map<Str, Str>) returns (out: seq<byte>, ghost keys: seq<Str>)
    ensures Lists(keys, kv) && Ordered(keys) && out == buf + Pairs(keys, kv)
  {
    hide Prefixes.LexLess, PutUvarint;
    var list := SortedKeys(kv);
    keys := list;
    out := buf;
    for i := 0 to |list|
      invariant forall k | k in list[..i] :: k in kv
      invariant out == buf + Pairs(list[..i], kv)
    {
      var k := list[i];
      assert k in list;
      assert list[..i + 1][..i] == list[..i];
      ghost var was := out;
      out := out + PutUvarint(|k|);
      out := out + k;
      out := out + PutUvarint(|kv[k]|);
      out := out + kv[k];
      assert out == was + Text(k) + Text(kv[k]);
    }
    assert list[..|list|] == list;
  }

  /** encodeObjAttrs. */
  method EncodeObjAttrs(a: Attrs) returns (buf: seq<byte>, ghost meta: seq<Str>, ghost audit: seq<Str>)
    ensures Lists(meta, a.meta) && Lists(audit, a.audit) && Ordered(meta) && Ordered(audit)
    ensures buf == Encode(a, meta, audit) && EncodingOf(buf, a)
  {
    hide Pairs, PutUvarint, Ordered;
    buf := [VERSION];
    buf := buf + PutUvarint(|a.meta|);
    buf := buf + PutUvarint(|a.audit|);
    buf, meta := AppendKV(buf, a.meta);
    buf, audit := AppendKV(buf, a.audit);
  }

  /** decodePairs. */
  method DecodePairs(buf: seq<byte>, count: nat) returns (r: Result<(map<Str, Str>, seq<byte>)>)
    ensures r == ReadPairs(buf, count, map[])
  {
    hide ReadText;
    var out: map<Str, Str>, rest := map[], buf;
    for i := 0 to count
      invariant ReadPairs(buf, count, map[]) == ReadPairs(rest, count - i, out)
    {
      var key := ReadText(rest);
      if key.Corrupt? { return Corrupt; }
      var val := ReadText(key.value.1);
      if val.Corrupt? { return Corrupt; }
      out := out[key.value.0 := val.value.0];
      rest := val.value.1;
    }
    r := Ok((out, rest));
  }
}
