/**
 Strictly ascending lists of integers, which is what the master list, a blob's values and the
 client's key slice all are, and the set each one stands for.
 */
module Sorted {
  ghost predicate Strict(s: seq<int>) {
    forall i, j | 0 <= i < j < |s| :: s[i] < s[j]
  }

  ghost predicate Weak(s: seq<int>) {
    forall i, j | 0 <= i < j < |s| :: s[i] <= s[j]
  }

  ghost function Elements(s: seq<int>): set<int> {
    set x | x in s
  }

  /** Appending a larger element keeps the order. */
  lemma StrictSnoc(s: seq<int>, x: int)
    requires Strict(s) && (s == [] || s[|s| - 1] < x)
    ensures Strict(s + [x]) && Elements(s + [x]) == Elements(s) + {x}
  {
  }

  lemma ElementsSnoc(s: seq<int>, x: int)
    ensures Elements(s + [x]) == Elements(s) + {x}
  {
  }

  lemma ElementsConcat(s: seq<int>, t: seq<int>)
    ensures Elements(s + t) == Elements(s) + Elements(t)
  {
  }

  lemma ElementsSplit(s: seq<int>, i: nat)
    requires i <= |s|
    ensures Elements(s) == Elements(s[..i]) + Elements(s[i..])
  {
    ElementsConcat(s[..i], s[i..]);
    assert s[..i] + s[i..] == s;
  }

  lemma {:induction false} ElementsSize(s: seq<int>)
    ensures |Elements(s)| <= |s|
  {
    if s != [] {
      var n := |s| - 1;
      ElementsSize(s[..n]);
      ElementsSnoc(s[..n], s[n]);
      assert s[..n] + [s[n]] == s;
    } else {
      assert Elements(s) == {};
    }
  }

  /** A set has one strictly ascending list. */
  lemma {:induction false} StrictUnique(s: seq<int>, t: seq<int>)
    requires Strict(s) && Strict(t) && Elements(s) == Elements(t)
    ensures s == t
  {
    if s != [] { assert s[0] in Elements(s); }
    if t != [] { assert t[0] in Elements(t); }
    if s != [] && t != [] {
      assert s[0] in Elements(t) && t[0] in Elements(s);
      assert s[0] == t[0];
      var s', t' := s[1..], t[1..];
      assert Elements(s') == Elements(s) - {s[0]};
      assert Elements(t') == Elements(t) - {t[0]};
      StrictUnique(s', t');
      assert s == [s[0]] + s' && t == [t[0]] + t';
    }
  }

  /** The ascending list of a set. */
  ghost function Listing(s: set<int>): (l: seq<int>)
    ensures Strict(l) && Elements(l) == s
  {
    if s == {} then [] else
    var m := Largest(s);
    var front := Listing(s - {m});
    assert forall x | x in front :: x in Elements(front);
    StrictSnoc(front, m);
    front + [m]
  }

  lemma HasElement(s: set<int>)
    ensures s == {} || exists x :: x in s
  {
    if forall x :: x !in s { assert s == {}; }
  }

  ghost function Largest(s: set<int>): (m: int)
    requires s != {}
    ensures m in s && forall x | x in s :: x <= m
  {
    HasElement(s);
    var x :| x in s;
    if s == {x} then x else
    var m := Largest(s - {x});
    assert forall y | y in s :: y == x || y in s - {x};
    if m < x then x else m
  }

  /** As many elements as places. */
  lemma {:induction false} StrictSize(s: seq<int>)
    requires Strict(s)
    ensures |Elements(s)| == |s|
  {
    if s != [] {
      var n := |s| - 1;
      var front, x := s[..n], s[n];
      assert Strict(front) && x !in Elements(front);
      StrictSize(front);
      hide Strict, Elements;
      assert Elements(s) == Elements(front) + {x} by {
        assert s == front + [x];
        ElementsSnoc(front, x);
      }
    }
  }

  /** The first place whose element is at least x: what a binary search answers. */
  method Search(s: seq<int>, x: int) returns (i: nat)
    requires Strict(s)
    ensures i <= |s| && (forall j | 0 <= j < i :: s[j] < x) && (forall j | i <= j < |s| :: x <= s[j])
    ensures x in s <==> i < |s| && s[i] == x
  {
    var lo: nat, hi: nat := 0, |s|;
    while lo < hi
      invariant lo <= hi <= |s|
      invariant forall j | 0 <= j < lo :: s[j] < x
      invariant forall j | hi <= j < |s| :: x <= s[j]
    {
      var mid := (lo + hi) / 2;
      if s[mid] >= x { hi := mid; } else { lo := mid + 1; }
    }
    i := lo;
  }

  /** Sorting, which the source leaves to its library. */
  function Sort(s: seq<int>): (r: seq<int>)
    ensures Weak(r) && |r| == |s| && (forall x :: x in r <==> x in s)
  {
    if s == [] then [] else Insert(s[0], Sort(s[1..]))
  }

  function Insert(x: int, s: seq<int>): (r: seq<int>)
    requires Weak(s)
    ensures Weak(r) && |r| == |s| + 1 && (forall y :: y in r <==> y == x || y in s)
  {
    if s == [] || x <= s[0] then [x] + s
    else
      var t := Insert(x, s[1..]);
      WeakCons(s[0], t);
      [s[0]] + t
  }

  lemma WeakCons(x: int, s: seq<int>)
    requires Weak(s) && forall y | y in s :: x <= y
    ensures Weak([x] + s)
  {
    assert forall j | 0 < j < |[x] + s| :: ([x] + s)[j] == s[j - 1] && s[j - 1] in s;
  }

  /** Drops repeats from the ordered a[..n], in place; the result is its first w elements. */
  method Compact(a: array<int>, n: nat) returns (w: nat)
    requires n <= a.Length && Weak(a[..n])
    modifies a
    ensures w <= n && Strict(a[..w]) && Elements(a[..w]) == Elements(old(a[..n]))
  {
    ghost var was := a[..n];
    w := 0;
    var r := 0;
    assert Distinct(was, 0, a[..0]);
    hide Elements, Strict;
    while r < n
      invariant w <= r <= n && (w == 0 <==> r == 0)
      invariant forall j | r <= j < n :: a[j] == was[j]
      invariant w > 0 ==> a[w - 1] == was[r - 1]
      invariant Distinct(was, r, a[..w])
    {
      ghost var kept := a[..w];
      DistinctStep(was, r, kept);
      if w == 0 || a[r] != a[w - 1] {
        a[w] := a[r];
        assert a[..w + 1] == kept + [was[r]];
        w := w + 1;
      }
      r := r + 1;
    }
    assert was[..r] == was;
  }

  /** kept is the first r of was, each element once. */
  ghost predicate Distinct(was: seq<int>, r: nat, kept: seq<int>)
    requires r <= |was|
  {
    && Strict(kept) && Elements(kept) == Elements(was[..r])
    && (kept == [] <==> r == 0) && (kept != [] ==> kept[|kept| - 1] == was[r - 1])
  }

  lemma DistinctStep(was: seq<int>, r: nat, kept: seq<int>)
    requires r < |was| && Weak(was) && Distinct(was, r, kept)
    ensures kept == [] || was[r] != kept[|kept| - 1] ==> Distinct(was, r + 1, kept + [was[r]])
    ensures kept != [] && was[r] == kept[|kept| - 1] ==> Distinct(was, r + 1, kept)
  {
    assert was[..r + 1] == was[..r] + [was[r]];
    ElementsSnoc(was[..r], was[r]);
    if kept == [] || was[r] != kept[|kept| - 1] {
      StrictSnoc(kept, was[r]);
    } else {
      assert was[r] in Elements(kept);
    }
  }
}
