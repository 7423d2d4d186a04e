/**
 The journal of a load against the claims and drops it stands for: which hashes it holds, and
 exactly when replaying it, all claims before all drops, does what the events did in their order.
 */
module JournalReplay {
  import opened Words
  import Sorted
  import opened Prefixes
  import opened KeySet
  import opened IndexClient

  datatype Op = Claimed(h: Hash) | Dropped(h: Hash)

  datatype Last = Untouched | Was(op: Op)

  /** The events, one after the other, on a key set. */
  function Played(v: View, ops: seq<Op>): (r: View)
    ensures r.shift == v.shift
  {
    if ops == [] then v else
    var n := |ops| - 1;
    var was := Played(v, ops[..n]);
    if ops[n].Claimed? then was.Plus(ops[n].h) else was.Minus(ops[n].h)
  }

  /** The events as a client takes them. */
  function Taken(c: Client, ops: seq<Op>): Client {
    if ops == [] then c else
    var n := |ops| - 1;
    var was := Taken(c, ops[..n]);
    if ops[n].Claimed? then Claim(was, ops[n].h) else Drop(was, ops[n].h)
  }

  /** The last event of a hash. */
  function LastOf(ops: seq<Op>, h: Hash): (r: Last)
    ensures r.Was? ==> r.op.h == h && r.op in ops
  {
    if ops == [] then Untouched else
    var n := |ops| - 1;
    if ops[n].h == h then Was(ops[n]) else LastOf(ops[..n], h)
  }

  /** The last event of any hash with a key. */
  function LastOn(ops: seq<Op>, k: u64, shift: nat): Last {
    if ops == [] then Untouched else
    var n := |ops| - 1;
    if KeyAt(ops[n].h, shift) == k then Was(ops[n]) else LastOn(ops[..n], k, shift)
  }

  lemma {:induction false} LastOnIs(ops: seq<Op>, k: u64, shift: nat)
    ensures var r := LastOn(ops, k, shift);
            && (r.Was? ==> KeyAt(r.op.h, shift) == k && LastOf(ops, r.op.h) == r)
            && (r.Untouched? ==> forall i | 0 <= i < |ops| :: KeyAt(ops[i].h, shift) != k)
  {
    hide KeyAt;
    if ops != [] { LastOnIs(ops[..|ops| - 1], k, shift); }
  }

  /** A client that started a load holds its copy with the events played, and each hash by its last event. */
  lemma {:induction false} JournalIs(c: Client, ops: seq<Op>)
    requires c.journal == Journal({}, {})
    ensures var t := Taken(c, ops);
            && t.keys == Played(c.keys, ops) && t.journal.Journal?
            && (forall h :: h in t.journal.added <==> LastOf(ops, h).Was? && LastOf(ops, h).op.Claimed?)
            && (forall h :: h in t.journal.dropped <==> LastOf(ops, h).Was? && LastOf(ops, h).op.Dropped?)
  {
    hide View.Plus, View.Minus;
    if ops != [] { JournalIs(c, ops[..|ops| - 1]); }
  }

  /** A key is there after the events if the last one on it was a claim, or none was and it was there before. */
  lemma {:induction false} PlayedIs(v: View, ops: seq<Op>, k: u64)
    ensures k in Played(v, ops).members <==>
              match LastOn(ops, k, v.shift) case Untouched => k in v.members case Was(op) => op.Claimed?
  {
    hide KeyAt;
    if ops != [] { PlayedIs(v, ops[..|ops| - 1], k); }
  }

  /** A key is there after a replay if no drop has it, and a claim does or it was there before. */
  lemma {:induction false} ReplayedIs(v: View, ops: seq<Op>, j: Journal, k: u64)
    requires j.Journal?
    requires forall h :: h in j.added <==> LastOf(ops, h).Was? && LastOf(ops, h).op.Claimed?
    requires forall h :: h in j.dropped <==> LastOf(ops, h).Was? && LastOf(ops, h).op.Dropped?
    ensures k in Replayed(v, j).members <==>
              match LastOn(ops, k, v.shift)
              case Untouched => k in v.members
              case Was(op) => op.Claimed? && forall d | d in j.dropped :: KeyAt(d, v.shift) != k
  {
    hide KeyAt;
    var last := LastOn(ops, k, v.shift);
    LastOnIs(ops, k, v.shift);
    if last.Untouched? {
      forall h | h in j.added + j.dropped
        ensures KeyAt(h, v.shift) != k
      {
        var op := LastOf(ops, h).op;
        var i :| 0 <= i < |ops| && ops[i] == op;
      }
    } else {
      assert last.op.h in j.added + j.dropped;
      assert KeyAt(last.op.h, v.shift) == k;
    }
  }

  /** No claim came after a drop of another hash with the same key. */
  ghost predicate DropsLast(ops: seq<Op>, dropped: set<Hash>, shift: nat) {
    forall d | d in dropped :: Drops(ops, d, shift)
  }

  predicate Drops(ops: seq<Op>, d: Hash, shift: nat) {
    var last := LastOn(ops, KeyAt(d, shift), shift);
    last.Was? && last.op.Dropped?
  }

  /**
   Replaying the journal does what the events did in their order if and only if no dropped hash
   shares its key with a hash claimed after it.
   */
  lemma {:induction false} ReplayIsInOrderIff(c: Client, ops: seq<Op>, v: View)
    requires c.journal == Journal({}, {}) && v.Masks()
    ensures Taken(c, ops).journal.Journal?
    ensures var j := Taken(c, ops).journal;
            Replayed(v, j) == Played(v, ops) <==> DropsLast(ops, j.dropped, v.shift)
  {
    hide KeyAt, Played, LastOn, LastOf, Taken, View.Masks, KeysAt;
    JournalIs(c, ops);
    var j := Taken(c, ops).journal;
    forall k: u64
      ensures k in Replayed(v, j).members <==>
                match LastOn(ops, k, v.shift)
                case Untouched => k in v.members
                case Was(op) => op.Claimed? && forall d | d in j.dropped :: KeyAt(d, v.shift) != k
      ensures k in Played(v, ops).members <==>
                match LastOn(ops, k, v.shift) case Untouched => k in v.members case Was(op) => op.Claimed?
    {
      PlayedIs(v, ops, k);
      ReplayedIs(v, ops, j, k);
    }
    if DropsLast(ops, j.dropped, v.shift) {
      InWord(v, ops, j);
      forall k: int | k in Played(v, ops).members
        ensures k in Replayed(v, j).members
      {
        var w: u64 := k;
        DropsElsewhere(ops, j.dropped, v.shift, w);
      }
      forall k: int | k in Replayed(v, j).members
        ensures k in Played(v, ops).members
      {
        var w: u64 := k;
      }
      SameView(Replayed(v, j), Played(v, ops));
    } else {
      var d :| d in j.dropped && !Drops(ops, d, v.shift);
      TouchedBy(ops, d, v.shift);
    }
  }

  lemma SameView(a: View, b: View)
    requires a.shift == b.shift
    requires forall k: int | k in a.members :: k in b.members
    requires forall k: int | k in b.members :: k in a.members
    ensures a == b
  {
    Within(a.members, b.members);
    Within(b.members, a.members);
  }

  lemma {:induction false} Within(a: set<int>, b: set<int>)
    requires forall k: int | k in a :: k in b
    ensures a <= b
    decreases |a|
  {
    if a != {} {
      Sorted.HasElement(a);
      var k :| k in a;
      Within(a - {k}, b);
      assert a == (a - {k}) + {k};
    }
  }

  lemma DropsElsewhere(ops: seq<Op>, dropped: set<Hash>, shift: nat, k: u64)
    requires DropsLast(ops, dropped, shift) && !(LastOn(ops, k, shift).Was? && LastOn(ops, k, shift).op.Dropped?)
    ensures forall d | d in dropped :: KeyAt(d, shift) != k
  {
    hide KeyAt, LastOn;
    assert forall d | d in dropped :: Drops(ops, d, shift);
  }

  /** A hash with an event has a key with one. */
  lemma {:induction false} TouchedBy(ops: seq<Op>, d: Hash, shift: nat)
    requires LastOf(ops, d).Was?
    ensures LastOn(ops, KeyAt(d, shift), shift).Was?
  {
    hide KeyAt;
    if ops[|ops| - 1].h != d { TouchedBy(ops[..|ops| - 1], d, shift); }
  }

  lemma {:induction false} InWord(v: View, ops: seq<Op>, j: Journal)
    requires v.Masks() && j.Journal?
    ensures forall k: int | k in Played(v, ops).members :: 0 <= k < WORD
    ensures forall k: int | k in Replayed(v, j).members :: 0 <= k < WORD
  {
    hide Masked;
    forall k: int | k in Replayed(v, j).members
      ensures 0 <= k < WORD
    {
      if k !in v.members {
        var h: Hash :| h in j.added && KeyAt(h, v.shift) == k;
      }
    }
    PlayedInWord(v, ops);
  }

  lemma {:induction false} PlayedInWord(v: View, ops: seq<Op>)
    requires v.Masks()
    ensures forall k: int | k in Played(v, ops).members :: 0 <= k < WORD
  {
    hide Masked;
    if ops != [] { PlayedInWord(v, ops[..|ops| - 1]); }
  }

  /** It is not always so: a claim made after a drop of another hash with the same key is lost. */
  lemma {:induction false} ClaimIsLost(c: Client, v: View, a: Hash, b: Hash)
    requires c.journal == Journal({}, {}) && v.Masks() && a != b && KeyAt(a, v.shift) == KeyAt(b, v.shift)
    ensures var ops := [Dropped(a), Claimed(b)];
            && Taken(c, ops).journal == Journal({b}, {a})
            && Played(v, ops).Has(b) && !Replayed(v, Journal({b}, {a})).Has(b)
  {
    hide KeyAt, View.Masks;
    var ops := [Dropped(a), Claimed(b)];
    assert ops[..1] == [Dropped(a)] && ops[..1][..0] == [];
    var none: set<Hash> := {};
    assert none - {a} + {b} == {b} && none + {a} - {b} == {a};
    assert Taken(c, ops[..1]).journal == Journal(none - {a}, none + {a});
    assert KeyAt(a, v.shift) in KeysAt({a}, v.shift);
  }
}
