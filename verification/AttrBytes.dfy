/**
 Which bytes are attributes: any list of pairs reads back, the last of a key counts, numbers stay
 within a word, and no value that is accepted is the start of another.
 */
module AttrBytes {
  import opened Words
  import opened ObjAttrs

  /** A number that was read fits a word. */
  lemma {:induction false} UvarintFits(buf: seq<byte>, i: nat)
    requires i < MAX_VARINT && GetUvarint(buf, i).Ok?
    ensures GetUvarint(buf, i).value.0 < Room(i)
    decreases |buf|
  {
    if buf[0] >= 128 { UvarintFits(buf[1..], i + 1); }
    RoomEnough(i);
  }

  lemma {:induction false} RoomEnough(i: nat)
    requires i < MAX_VARINT
    ensures Room(i) >= if i == 9 then 2 else 128
    decreases MAX_VARINT - i
  {
    if i < 9 { RoomEnough(i + 1); }
  }

  lemma {:induction false} WordFits(buf: seq<byte>)
    requires GetUvarint(buf, 0).Ok?
    ensures GetUvarint(buf, 0).value.0 < 0x1_0000_0000_0000_0000
  {
    hide GetUvarint, Room;
    UvarintFits(buf, 0);
    WordRoom();
  }

  // What was read does not change when more follows.

  lemma {:induction false} UvarintMore(buf: seq<byte>, i: nat, tail: seq<byte>)
    requires GetUvarint(buf, i).Ok?
    ensures GetUvarint(buf + tail, i) == GetUvarint(buf, i)
    decreases |buf|
  {
    assert (buf + tail)[1..] == buf[1..] + tail;
    if buf[0] >= 128 { UvarintMore(buf[1..], i + 1, tail); }
  }

  lemma {:induction false} TextMore(buf: seq<byte>, tail: seq<byte>)
    requires ReadText(buf).Ok?
    ensures ReadText(buf + tail) == Ok((ReadText(buf).value.0, ReadText(buf).value.1 + tail))
  {
    hide GetUvarint;
    UvarintMore(buf, 0, tail);
    var n := GetUvarint(buf, 0).value;
    var end := n.1 + n.0;
    assert (buf + tail)[n.1..end] == buf[n.1..end] && (buf + tail)[end..] == buf[end..] + tail;
  }

  lemma {:induction false} PairsMore(buf: seq<byte>, count: nat, out: map<Str, Str>, tail: seq<byte>)
    requires ReadPairs(buf, count, out).Ok?
    ensures ReadPairs(buf + tail, count, out) ==
            Ok((ReadPairs(buf, count, out).value.0, ReadPairs(buf, count, out).value.1 + tail))
    decreases count
  {
    hide ReadText;
    if count > 0 {
      var key := ReadText(buf).value;
      TextMore(buf, tail);
      TextMore(key.1, tail);
      var val := ReadText(key.1).value;
      PairsMore(val.1, count - 1, out[key.0 := val.0], tail);
    }
  }

  lemma {:induction false} BodyMore(buf: seq<byte>, nMeta: nat, nAudit: nat, tail: seq<byte>)
    requires DecodeBody(buf, nMeta, nAudit).Ok? && DecodeBody(buf + tail, nMeta, nAudit).Ok?
    ensures tail == []
  {
    hide ReadPairs;
    var meta := ReadPairs(buf, nMeta, map[]).value;
    PairsMore(buf, nMeta, map[], tail);
    PairsMore(meta.1, nAudit, map[], tail);
  }

  /** No accepted value is the start of another: one that is cut, or that anything is added to, is refused. */
  lemma {:induction false} PrefixFree(buf: seq<byte>, tail: seq<byte>)
    requires Decode(buf).Ok? && Decode(buf + tail).Ok?
    ensures tail == [] && buf != [] && buf[0] == 1
  {
    hide GetUvarint, DecodeBody;
    var a := buf[1..];
    assert (buf + tail)[1..] == a + tail;
    UvarintMore(a, 0, tail);
    var n := GetUvarint(a, 0).value;
    var b := a[n.1..];
    assert (a + tail)[n.1..] == b + tail;
    UvarintMore(b, 0, tail);
    var m := GetUvarint(b, 0).value;
    assert (b + tail)[m.1..] == b[m.1..] + tail;
    BodyMore(b[m.1..], n.0, m.0, tail);
  }

  // Any pairs, in any order and with repeats.

  function PairBytes(pairs: seq<(Str, Str)>): seq<byte> {
    if pairs == [] then [] else Text(pairs[0].0) + (Text(pairs[0].1) + PairBytes(pairs[1..]))
  }

  /** The map of some pairs over another: what the last pair of each key says. */
  ghost predicate LastOf(out: map<Str, Str>, pairs: seq<(Str, Str)>, m: map<Str, Str>) {
    && (forall k :: k in m <==> k in out || exists i | 0 <= i < |pairs| :: pairs[i].0 == k)
    && (forall i | 0 <= i < |pairs| && IsLast(pairs, i) :: pairs[i].0 in m && m[pairs[i].0] == pairs[i].1)
    && (forall k | k in out && forall i | 0 <= i < |pairs| :: pairs[i].0 != k :: k in m && m[k] == out[k])
  }

  ghost predicate IsLast(pairs: seq<(Str, Str)>, i: nat)
    requires i < |pairs|
  {
    forall j | i < j < |pairs| :: pairs[j].0 != pairs[i].0
  }

  /** Any list of pairs reads back as the map that its last pair of each key says, with what follows left. */
  lemma {:induction false} PairsReadBack(pairs: seq<(Str, Str)>, out: map<Str, Str>, tail: seq<byte>)
    returns (m: map<Str, Str>)
    requires forall i | 0 <= i < |pairs| :: |pairs[i].0| < WORD && |pairs[i].1| < WORD
    ensures ReadPairs(PairBytes(pairs) + tail, |pairs|, out) == Ok((m, tail)) && LastOf(out, pairs, m)
  {
    hide ReadText, Text, LastOf;
    if pairs == [] {
      m := out;
      assert [] + tail == tail;
      NoPairs(out);
    } else {
      var (k, v) := pairs[0];
      var rest := PairBytes(pairs[1..]) + tail;
      Regrouped(Text(k), Text(v), PairBytes(pairs[1..]), tail);
      TextRoundTrip(k, Text(v) + rest);
      TextRoundTrip(v, rest);
      m := PairsReadBack(pairs[1..], out[k := v], tail);
      LastOfNext(out, pairs, m);
    }
  }

  lemma NoPairs(out: map<Str, Str>)
    ensures LastOf(out, [], out)
  {
  }

  lemma {:induction false} LastOfNext(out: map<Str, Str>, pairs: seq<(Str, Str)>, m: map<Str, Str>)
    requires pairs != [] && LastOf(out[pairs[0].0 := pairs[0].1], pairs[1..], m)
    ensures LastOf(out, pairs, m)
  {
    var rest := pairs[1..];
    assert forall i | 0 < i < |pairs| :: pairs[i] == rest[i - 1];
    forall i | 0 <= i < |pairs| && IsLast(pairs, i)
      ensures pairs[i].0 in m && m[pairs[i].0] == pairs[i].1
    {
      if i > 0 {
        assert IsLast(rest, i - 1);
      } else {
        assert forall j | 0 <= j < |rest| :: rest[j] == pairs[j + 1];
      }
    }
    forall k
      ensures k in m <==> k in out || exists i | 0 <= i < |pairs| :: pairs[i].0 == k
    {
      if i :| 0 <= i < |pairs| && pairs[i].0 == k {
        if i > 0 { assert rest[i - 1].0 == k; }
      }
    }
  }
}
