/**
 The client's key set: a sorted slice, a buffer of additions and a buffer of deletions.

 The slice is an array with a length, because the merge that empties the buffers works in place
 from the end. Keys are numbers; the source orders its byte arrays the same way.
 */
module SortedSet {
  import opened Sorted

  const COMPACT_AT := 512

  /** The merge of two lists, the larger last element last. */
  ghost function Merge(s: seq<int>, t: seq<int>): (r: seq<int>)
    ensures |r| == |s| + |t|
    decreases |s| + |t|
  {
    var i, j := |s| - 1, |t| - 1;
    if t == [] then s
    else if s != [] && s[i] > t[j] then Merge(s[..i], t) + [s[i]]
    else Merge(s, t[..j]) + [t[j]]
  }

  /** The merge holds exactly the elements of both, in order. */
  lemma {:induction false} MergeIsUnion(s: seq<int>, t: seq<int>)
    requires Strict(s) && Strict(t) && Elements(s) !! Elements(t)
    ensures Strict(Merge(s, t)) && Elements(Merge(s, t)) == Elements(s) + Elements(t)
    decreases |s| + |t|
  {
    hide Strict, Elements;
    if t == [] {
      NoElements(t);
    } else {
      var i, j := |s| - 1, |t| - 1;
      LastOf(t);
      if s != [] { LastOf(s); }
      if s != [] && s[i] > t[j] {
        MergeIsUnion(s[..i], t);
        SnocAbove(Merge(s[..i], t), s[i]);
      } else {
        if s == [] { NoElements(s); }
        MergeIsUnion(s, t[..j]);
        SnocAbove(Merge(s, t[..j]), t[j]);
      }
    }
  }

  lemma NoElements(s: seq<int>)
    requires s == []
    ensures Elements(s) == {}
  {
  }

  lemma LastOf(s: seq<int>)
    requires s != [] && Strict(s)
    ensures var n := |s| - 1;
            && Strict(s[..n]) && Elements(s) == Elements(s[..n]) + {s[n]}
            && s[n] !in Elements(s[..n]) && forall x | x in Elements(s) :: x == s[n] || x < s[n]
  {
    var n := |s| - 1;
    assert s == s[..n] + [s[n]];
    ElementsSnoc(s[..n], s[n]);
  }

  lemma SnocAbove(s: seq<int>, x: int)
    requires Strict(s) && forall y | y in Elements(s) :: y < x
    ensures Strict(s + [x]) && Elements(s + [x]) == Elements(s) + {x}
  {
    if s != [] { assert s[|s| - 1] in Elements(s); }
    StrictSnoc(s, x);
  }

  /** What is still to be written of a full merge: the merge of what is still to be read. */
  ghost predicate Ahead(full: seq<int>, s: seq<int>, i: nat, t: seq<int>, j: nat) {
    i <= |s| && j <= |t| && i + j <= |full| && full[..i + j] == Merge(s[..i], t[..j])
  }

  /** Merges add into the first n elements of a, from the end, so nothing is overwritten unread. */
  method MergeBack(a: array<int>, n: nat, add: seq<int>)
    requires n + |add| <= a.Length
    modifies a
    ensures a[..n + |add|] == Merge(old(a[..n]), add)
  {
    hide Merge, Ahead;
    ghost var was := a[..n];
    ghost var full := Merge(was, add);
    AllAhead(was, add);
    var i: int, j: int, w: int := n - 1, |add| - 1, n + |add| - 1;
    while j >= 0
      invariant -1 <= i < n && -1 <= j < |add| && w == i + j + 1
      invariant forall k | 0 <= k <= i :: a[k] == was[k]
      invariant forall k | w < k < n + |add| :: a[k] == full[k]
      invariant Ahead(full, was, i + 1, add, j + 1)
      decreases i + j + 2
    {
      TakeLast(was, i + 1, add, j + 1, full);
      var x;
      if i >= 0 && a[i] > add[j] {
        x, i := a[i], i - 1;
      } else {
        x, j := add[j], j - 1;
      }
      a[w], w := x, w - 1;
    }
    OnlyFirstAhead(full, was, i + 1, add);
  }

  lemma AllAhead(s: seq<int>, t: seq<int>)
    ensures Ahead(Merge(s, t), s, |s|, t, |t|)
  {
    hide Merge;
    assert s[..|s|] == s && t[..|t|] == t && Merge(s, t)[..|s| + |t|] == Merge(s, t);
  }

  /** When nothing of t is left, the rest is in its place. */
  lemma OnlyFirstAhead(full: seq<int>, s: seq<int>, i: nat, t: seq<int>)
    requires Ahead(full, s, i, t, 0)
    ensures forall k | 0 <= k < i :: full[k] == s[k]
  {
    MergeNothing(s[..i], t[..0]);
    forall k | 0 <= k < i
      ensures full[k] == s[k]
    {
      assert full[..i][k] == s[..i][k];
    }
  }

  lemma MergeNothing(s: seq<int>, t: seq<int>)
    requires t == []
    ensures Merge(s, t) == s
  {
  }

  lemma {:induction false} TakeLast(s: seq<int>, i: nat, t: seq<int>, j: nat, full: seq<int>)
    requires 0 < j && Ahead(full, s, i, t, j)
    ensures i <= |s| && j <= |t| && i + j <= |full|
    ensures if i > 0 && s[i - 1] > t[j - 1] then full[i + j - 1] == s[i - 1] && Ahead(full, s, i - 1, t, j)
            else full[i + j - 1] == t[j - 1] && Ahead(full, s, i, t, j - 1)
  {
    var w := i + j;
    assert full[..w][w - 1] == full[w - 1] && full[..w][..w - 1] == full[..w - 1];
    assert t[..j][..j - 1] == t[..j - 1];
    if i > 0 { assert s[..i][..i - 1] == s[..i - 1]; }
  }

  /** Keeps, in order and in place, the elements of a[..n] that are not victims. */
  method DeleteFrom(a: array<int>, n: nat, victims: set<int>) returns (w: nat)
    requires n <= a.Length && Strict(a[..n])
    modifies a
    ensures w <= n && Strict(a[..w]) && Elements(a[..w]) == Elements(old(a[..n])) - victims
  {
    hide Kept, Strict, Elements;
    ghost var was := a[..n];
    w := 0;
    var r := 0;
    KeptAtEnds(was, victims, []);
    while r < n
      invariant w <= r <= n
      invariant forall k | r <= k < n :: a[k] == was[k]
      invariant Kept(was, r, victims, a[..w])
    {
      ghost var kept := a[..w];
      KeepStep(was, r, victims, kept);
      if a[r] !in victims {
        a[w] := a[r];
        assert a[..w + 1] == kept + [was[r]];
        w := w + 1;
      }
      r := r + 1;
    }
    KeptAtEnds(was, victims, a[..w]);
  }

  lemma KeptAtEnds(was: seq<int>, victims: set<int>, kept: seq<int>)
    ensures Kept(was, 0, victims, [])
    ensures Kept(was, |was|, victims, kept) ==> Strict(kept) && Elements(kept) == Elements(was) - victims
  {
    assert was[..|was|] == was;
  }

  ghost predicate Kept(was: seq<int>, r: nat, victims: set<int>, kept: seq<int>)
    requires r <= |was|
  {
    && Strict(kept) && Elements(kept) == Elements(was[..r]) - victims
    && (kept != [] && r < |was| ==> kept[|kept| - 1] < was[r])
  }

  lemma KeepStep(was: seq<int>, r: nat, victims: set<int>, kept: seq<int>)
    requires r < |was| && Strict(was) && Kept(was, r, victims, kept)
    ensures Kept(was, r + 1, victims, if was[r] in victims then kept else kept + [was[r]])
  {
    hide Elements;
    assert was[..r + 1] == was[..r] + [was[r]];
    ElementsSnoc(was[..r], was[r]);
    if was[r] !in victims { StrictSnoc(kept, was[r]); }
  }

  /** The members of a set, ascending. */
  method SortedValues(s: set<int>) returns (out: seq<int>)
    ensures Strict(out) && Elements(out) == s
  {
    hide Strict, Weak;
    var list: seq<int> := [];
    var left := s;
    while left != {}
      invariant left <= s && Elements(list) == s - left && |list| == |s - left|
      decreases |left|
    {
      HasElement(left);
      var x :| x in left;
      ElementsSnoc(list, x);
      assert s - (left - {x}) == (s - left) + {x};
      list, left := list + [x], left - {x};
    }
    assert s - left == s;
    out := Sort(list);
    assert Elements(out) == s;
    WeakDistinct(out);
  }

  /** Ordered and without repeats is strictly ascending. */
  lemma {:induction false} WeakDistinct(s: seq<int>)
    requires Weak(s) && |Elements(s)| == |s|
    ensures Strict(s)
  {
    forall i, j | 0 <= i < j < |s|
      ensures s[i] < s[j]
    {
      if s[i] == s[j] { DropRepeat(s, i, j); }
    }
  }

  lemma {:induction false} DropRepeat(s: seq<int>, i: nat, j: nat)
    requires i < j < |s| && s[i] == s[j]
    ensures |Elements(s)| < |s|
  {
    var t := s[..j] + s[j + 1..];
    assert forall k | 0 <= k < |s| :: k != j ==> s[k] == t[if k < j then k else k - 1];
    assert s[j] == t[i];
    assert Elements(t) == Elements(s);
    ElementsSize(t);
  }

  class HashSet {
    var buf: array<int>
    var len: nat
    var pending: set<int>
    var removed: set<int>

    ghost function Slice(): seq<int>
      requires len <= buf.Length
      reads this, buf
    {
      buf[..len]
    }

    /** The slice ascends, additions are not in it, and deletions are. */
    ghost predicate Shape()
      reads this, buf
    {
      len <= buf.Length && Strict(Slice()) && pending !! Elements(Slice()) && removed <= Elements(Slice())
    }

    ghost predicate Valid()
      reads this, buf
    {
      Shape() && |pending| < COMPACT_AT && |removed| < COMPACT_AT
    }

    /** The set this object stands for. */
    ghost function Contents(): set<int>
      requires Shape()
      reads this, buf
    {
      Elements(Slice()) - removed + pending
    }

    /** adoptSorted: a claim of order is checked, not trusted. */
    constructor (keys: seq<int>)
      ensures Valid() && fresh(buf)
      ensures Contents() == Elements(keys) && pending == {} && removed == {}
    {
      var sorted := Sort(keys);
      var a := new int[|sorted|](i requires 0 <= i < |sorted| => sorted[i]);
      assert a[..a.Length] == sorted;
      var w := Compact(a, a.Length);
      buf, len, pending, removed := a, w, {}, {};
      new;
      assert Elements(sorted) == Elements(keys);
    }

    method Len() returns (n: nat)
      requires Shape()
      ensures n == |Contents()|
    {
      StrictSize(Slice());
      ghost var all := Elements(Slice());
      assert |all - removed| == |all| - |removed|;
      n := len + |pending| - |removed|;
    }

    method Contains(h: int) returns (found: bool)
      requires Shape()
      ensures found <==> h in Contents()
    {
      if h in removed { return false; }
      if h in pending { return true; }
      found := InSlice(h);
    }

    method InSlice(h: int) returns (found: bool)
      requires Shape()
      ensures found <==> h in Elements(Slice())
    {
      var i := Search(buf[..len], h);
      found := i < len && buf[i] == h;
    }

    method Add(h: int)
      requires Valid()
      modifies this, buf
      ensures Valid() && (buf == old(buf) || fresh(buf))
      ensures Contents() == old(Contents()) + {h}
    {
      hide Strict, Elements;
      if h in removed {
        removed := removed - {h};
        return;
      }
      if h in pending { return; }
      var found := InSlice(h);
      if found { return; }
      pending := pending + {h};
      FoldIfFull();
    }

    method Remove(h: int)
      requires Valid()
      modifies this, buf
      ensures Valid() && (buf == old(buf) || fresh(buf))
      ensures Contents() == old(Contents()) - {h}
    {
      hide Strict, Elements;
      if h in pending {
        pending := pending - {h};
        return;
      }
      var found := InSlice(h);
      if !found { return; }
      removed := removed + {h};
      FoldIfFull();
    }

    /** A full buffer forces the merge. */
    method FoldIfFull()
      requires Shape() && |pending| <= COMPACT_AT && |removed| <= COMPACT_AT
      modifies this, buf
      ensures Valid() && (buf == old(buf) || fresh(buf)) && Contents() == old(Contents())
    {
      hide Strict, Elements, Slice, Shape, Contents;
      if |pending| >= COMPACT_AT || |removed| >= COMPACT_AT { Fold(); }
    }

    /** compact: folds both buffers into the slice. */
    method Fold()
      requires Shape()
      modifies this, buf
      ensures Valid() && (buf == old(buf) || fresh(buf))
      ensures Contents() == old(Contents()) && pending == {} && removed == {}
    {
      hide Strict, Elements, Slice, Shape, Contents;
      if removed != {} { FoldRemoved(); }
      if pending != {} { FoldPending(); }
    }

    method FoldRemoved()
      requires Shape()
      modifies this, buf
      ensures Shape() && buf == old(buf) && pending == old(pending) && removed == {}
      ensures Contents() == old(Contents())
    {
      hide Strict, Elements;
      len := DeleteFrom(buf, len, removed);
      removed := {};
    }

    method FoldPending()
      requires Shape() && removed == {}
      modifies this, buf
      ensures Shape() && (buf == old(buf) || fresh(buf)) && pending == {} && removed == {}
      ensures Contents() == old(Contents())
    {
      hide Strict, Elements;
      var add := SortedValues(pending);
      pending := {};
      Grow(|add|);
      MergeIsUnion(Slice(), add);
      MergeBack(buf, len, add);
      len := len + |add|;
    }

    /** Room for n more elements, in the same array when it has it. */
    method Grow(n: nat)
      requires len <= buf.Length
      modifies this`buf
      ensures len + n <= buf.Length && (buf == old(buf) || fresh(buf)) && Slice() == old(Slice())
    {
      if len + n > buf.Length {
        var was := buf;
        buf := new int[len + n](i => 0);
        var i := 0;
        while i < len
          invariant 0 <= i <= len && len + n <= buf.Length && fresh(buf) && buf != was
          invariant forall k | 0 <= k < i :: buf[k] == was[k]
        {
          buf[i] := was[i];
          i := i + 1;
        }
      }
    }

    /** Every member once. */
    method All() returns (out: seq<int>)
      requires Shape()
      ensures Elements(out) == Contents() && |out| == |Contents()|
    {
      out := [];
      for i := 0 to len
        invariant Kept(Slice(), i, removed, out)
      {
        KeepStep(Slice(), i, removed, out);
        if buf[i] !in removed { out := out + [buf[i]]; }
      }
      assert Slice()[..len] == Slice();
      StrictSize(out);
      var more := SortedValues(pending);
      StrictSize(more);
      ElementsConcat(out, more);
      out := out + more;
    }
  }
}
