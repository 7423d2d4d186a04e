/**
 The index as the client holds it: the leading bytes of each hash, with the low bits cleared down
 to the narrowest width it has seen.
 */
module KeySet {
  import opened Words
  import opened Sorted
  import opened Prefixes
  import opened SortedSet

  /** The value of a key set. */
  datatype View = View(members: set<int>, shift: nat) {
    /** Every member is a key with its low bits clear. */
    ghost predicate Masks() {
      shift <= 64 && forall k | k in members :: 0 <= k < WORD && Masked(k, shift) == k
    }

    predicate Has(h: Hash) { KeyAt(h, shift) in members }

    function Plus(h: Hash): View { View(members + {KeyAt(h, shift)}, shift) }

    function Minus(h: Hash): View { View(members - {KeyAt(h, shift)}, shift) }

    ghost function NarrowTo(to: nat): View { View(Narrowed(members, to), to) }

    /** Union, at the narrower of the two widths. */
    ghost function PlusAll(other: View): View {
      var to := if other.shift > shift then other.shift else shift;
      View(Narrowed(members, to) + Narrowed(other.members, to), to)
    }
  }

  lemma MaskAgain(k: u64, shift: nat)
    ensures Masked(Masked(k, shift), shift) == Masked(k, shift)
  {
    MaskTwice(k, shift, shift);
  }

  /** Keys already masked stay as they are. */
  lemma NarrowedSame(members: set<int>, shift: nat)
    requires View(members, shift).Masks()
    ensures Narrowed(members, shift) == members
  {
    hide Masked;
    forall k | k in members
      ensures k in Narrowed(members, shift)
    {
      assert Masked(k, shift) == k;
    }
  }

  lemma {:induction false} NarrowedMasks(members: set<int>, shift: nat)
    requires shift <= 64
    ensures View(Narrowed(members, shift), shift).Masks()
  {
    hide Masked;
    forall k | k in Narrowed(members, shift)
      ensures 0 <= k < WORD && Masked(k, shift) == k
    {
      var k': u64 :| k' in members && Masked(k', shift) == k;
      MaskAgain(k', shift);
    }
  }

  /** Narrowing never turns a present key into an absent one. */
  lemma {:induction false} NarrowKeeps(v: View, to: nat, h: Hash)
    requires v.shift <= to && v.Has(h)
    ensures v.NarrowTo(to).Has(h)
  {
    hide Masked;
    MaskTwice(Key64(h), v.shift, to);
  }

  /** Joining two sets is the image of their union under the narrower mask. */
  lemma {:induction false} JoinIsImage(v: View, o: View)
    ensures v.PlusAll(o).members == Narrowed(v.members + o.members, v.PlusAll(o).shift)
  {
  }

  /** A join knows every hash either side knew. */
  lemma {:induction false} JoinKeeps(v: View, o: View, h: Hash)
    requires v.Has(h) || o.Has(h)
    ensures v.PlusAll(o).Has(h)
  {
    hide Masked;
    var to := v.PlusAll(o).shift;
    MaskTwice(Key64(h), v.shift, to);
    MaskTwice(Key64(h), o.shift, to);
  }

  class KeySet {
    const keys: HashSet
    var shift: nat

    ghost predicate Valid()
      reads this, keys, keys.buf
    {
      keys.Valid() && Value().Masks()
    }

    ghost function Value(): View
      requires keys.Valid()
      reads this, keys, keys.buf
    {
      View(keys.Contents(), shift)
    }

    /** adoptSortedKeysAt: a body's keys, masked to the width the blob carried. */
    constructor (body: seq<int>, widthBits: nat)
      requires widthBits <= 64 && View(Elements(body), 64 - widthBits).Masks()
      ensures Valid() && fresh(keys) && fresh(keys.buf)
      ensures Value() == View(Elements(body), 64 - widthBits)
    {
      keys := new HashSet(body);
      shift := 64 - widthBits;
    }

    method MaskKey(k: u64) returns (m: u64)
      requires shift <= 64
      ensures m == Masked(k, shift)
    {
      MaskIs(k, shift);
      m := And(k, Shl(Not(0), shift));
    }

    method Contains(h: Hash) returns (found: bool)
      requires Valid()
      ensures found <==> Value().Has(h)
    {
      var k := MaskKey(Key64(h));
      found := keys.Contains(k);
    }

    method Add(h: Hash)
      requires Valid()
      modifies keys, keys.buf
      ensures Valid() && (keys.buf == old(keys.buf) || fresh(keys.buf))
      ensures Value() == old(Value()).Plus(h)
    {
      hide Masked, HashSet.Valid, HashSet.Contents, HashSet.Shape;
      AddKey(Key64(h));
    }

    method Remove(h: Hash)
      requires Valid()
      modifies keys, keys.buf
      ensures Valid() && (keys.buf == old(keys.buf) || fresh(keys.buf))
      ensures Value() == old(Value()).Minus(h)
    {
      hide Masked, HashSet.Valid, HashSet.Contents, HashSet.Shape;
      var k := MaskKey(Key64(h));
      keys.Remove(k);
    }

    /** Drops the low bits of every key, in place, and makes keys that now agree one. */
    method NarrowTo(to: nat)
      requires Valid() && shift <= to <= 64
      modifies this, keys, keys.buf
      ensures Valid() && (keys.buf == old(keys.buf) || fresh(keys.buf))
      ensures Value() == old(Value()).NarrowTo(to)
    {
      ghost var was := Value();
      keys.Fold();
      hide Masked, Strict, Weak, Elements;
      shift := to;
      NarrowSlice(keys, to);
      NarrowedMasks(was.members, to);
    }

    /** Adds every member of other; a narrower one narrows this set first. */
    method AddAll(other: KeySet)
      requires Valid() && other.Valid()
      requires other != this && other.keys != keys && other.keys.buf != keys.buf
      modifies this, keys, keys.buf
      ensures Valid() && (keys.buf == old(keys.buf) || fresh(keys.buf))
      ensures Value() == old(Value()).PlusAll(other.Value())
    {
      hide Masked, HashSet.Contents, HashSet.Shape, Elements;
      ghost var was, o := Value(), other.Value();
      NarrowedSame(was.members, shift);
      if other.shift > shift { NarrowTo(other.shift); }
      var list := other.keys.All();
      InRange(list);
      AddKeys(list);
    }

    method AddKeys(list: seq<int>)
      requires Valid() && forall i | 0 <= i < |list| :: 0 <= list[i] < WORD
      modifies keys, keys.buf
      ensures Valid() && (keys.buf == old(keys.buf) || fresh(keys.buf))
      ensures Value() == View(old(Value()).members + Narrowed(Elements(list), shift), shift)
    {
      hide Masked, HashSet.Valid, HashSet.Contents, HashSet.Shape, Elements, Narrowed;
      ghost var was := Value().members;
      NarrowedNone(shift);
      var i := 0;
      while i < |list|
        invariant 0 <= i <= |list| && Valid() && (keys.buf == old(keys.buf) || fresh(keys.buf))
        invariant Value() == View(was + Narrowed(Elements(list[..i]), shift), shift)
      {
        NarrowedNext(list, i, shift);
        AddKey(list[i]);
        i := i + 1;
      }
      assert list[..i] == list;
    }

    method AddKey(k: u64)
      requires Valid()
      modifies keys, keys.buf
      ensures Valid() && (keys.buf == old(keys.buf) || fresh(keys.buf))
      ensures Value() == View(old(Value()).members + {Masked(k, shift)}, shift)
    {
      hide Masked, HashSet.Valid, HashSet.Contents, HashSet.Shape;
      var m := MaskKey(k);
      MaskAgain(k, shift);
      keys.Add(m);
    }
  }

  lemma NarrowedNone(shift: nat)
    ensures Narrowed(Elements([]), shift) == {}
  {
  }

  lemma NarrowedNext(list: seq<int>, i: nat, shift: nat)
    requires i < |list| && 0 <= list[i] < WORD
    ensures Narrowed(Elements(list[..i + 1]), shift) == Narrowed(Elements(list[..i]), shift) + {Masked(list[i], shift)}
  {
    hide Masked;
    assert list[..i + 1] == list[..i] + [list[i]];
    ElementsSnoc(list[..i], list[i]);
  }

  /** Masks the slice of a folded set and drops the repeats. */
  method NarrowSlice(keys: HashSet, shift: nat)
    requires keys.Valid() && keys.pending == {} && keys.removed == {} && shift <= 64
    requires forall k | k in keys.Contents() :: 0 <= k < WORD
    modifies keys, keys.buf
    ensures keys.Valid() && keys.buf == old(keys.buf) && keys.Contents() == Narrowed(old(keys.Contents()), shift)
  {
    hide Masked, Strict, Weak, Elements;
    assert Elements(keys.Slice()) == keys.Contents();
    InRange(keys.Slice());
    MaskSlice(keys.buf, keys.len, shift);
    keys.len := Compact(keys.buf, keys.len);
  }

  lemma InRange(s: seq<int>)
    requires forall k | k in Elements(s) :: 0 <= k < WORD
    ensures forall i | 0 <= i < |s| :: 0 <= s[i] < WORD
  {
    forall i | 0 <= i < |s|
      ensures 0 <= s[i] < WORD
    {
      assert s[i] in Elements(s);
    }
  }

  /** Masks every element; order is kept, though neighbours may become equal. */
  method MaskSlice(a: array<int>, n: nat, shift: nat)
    requires n <= a.Length && shift <= 64 && Strict(a[..n]) && forall i | 0 <= i < n :: 0 <= a[..n][i] < WORD
    modifies a
    ensures Weak(a[..n]) && Elements(a[..n]) == Narrowed(Elements(old(a[..n])), shift)
  {
    hide Masked, Strict, Weak, Elements, Shl, And;
    ghost var was := a[..n];
    var mask := Shl(Not(0), shift);
    var i := 0;
    while i < n
      invariant 0 <= i <= n
      invariant forall k | 0 <= k < i :: a[k] == Masked(was[k], shift)
      invariant forall k | i <= k < n :: a[k] == was[k]
    {
      MaskIs(a[i], shift);
      a[i] := And(a[i], mask);
      i := i + 1;
    }
    MaskedList(was, a[..n], shift);
  }

  lemma {:induction false} MaskedList(was: seq<int>, now: seq<int>, shift: nat)
    requires Strict(was) && |now| == |was| && forall i | 0 <= i < |was| :: 0 <= was[i] < WORD
    requires forall i | 0 <= i < |was| :: now[i] == Masked(was[i], shift)
    ensures Weak(now) && Elements(now) == Narrowed(Elements(was), shift)
  {
    hide Masked;
    forall i, j | 0 <= i < j < |now|
      ensures now[i] <= now[j]
    {
      MaskMono(was[i], was[j], shift);
    }
    forall k | k in Narrowed(Elements(was), shift)
      ensures k in Elements(now)
    {
      var k': u64 :| k' in Elements(was) && Masked(k', shift) == k;
      var i :| 0 <= i < |was| && was[i] == k';
      assert now[i] in now;
    }
    forall k | k in Elements(now)
      ensures k in Narrowed(Elements(was), shift)
    {
      var i :| 0 <= i < |now| && now[i] == k;
      assert was[i] in Elements(was);
    }
  }
}
