/**
 The loops over hash lists that the server's index is made of.
 */
module HashLists {
  import opened Words
  import opened Sorted
  import opened Prefixes

  /** Sorts and drops repeats. */
  method SortDedupe(s: seq<Hash>) returns (out: seq<Hash>)
    ensures Strict(out) && Elements(out) == Elements(s)
  {
    var sorted := Sort(s);
    var a := new int[|sorted|](i requires 0 <= i < |sorted| => sorted[i]);
    assert a[..a.Length] == sorted;
    var w := Compact(a, a.Length);
    forall i | 0 <= i < w
      ensures a[i] in s
    {
      assert a[..w][i] in Elements(a[..w]);
    }
    out := a[..w];
  }

  method MergeSorted(a: seq<Hash>, b: seq<Hash>) returns (out: seq<Hash>)
    requires Strict(a) && Strict(b)
    ensures Strict(out) && Elements(out) == Elements(a) + Elements(b)
  {
    if |b| == 0 { return a; }
    out := [];
    var i: nat, j: nat := 0, 0;
    while i < |a| && j < |b|
      invariant i <= |a| && j <= |b| && Merged(a, i, b, j, out)
    {
      MergeStep(a, i, b, j, out);
      if a[i] < b[j] {
        out, i := out + [a[i]], i + 1;
      } else if a[i] > b[j] {
        out, j := out + [b[j]], j + 1;
      } else {
        out, i, j := out + [a[i]], i + 1, j + 1;
      }
    }
    MergeTail(a, i, b, j, out);
    out := out + a[i..] + b[j..];
  }

  /** out is the merge of the first i of a and the first j of b, and lies below the rest. */
  ghost predicate Merged(a: seq<Hash>, i: nat, b: seq<Hash>, j: nat, out: seq<Hash>)
    requires i <= |a| && j <= |b|
  {
    && Strict(out) && Elements(out) == Elements(a[..i]) + Elements(b[..j])
    && (out != [] && i < |a| ==> out[|out| - 1] < a[i])
    && (out != [] && j < |b| ==> out[|out| - 1] < b[j])
  }

  lemma MergeStep(a: seq<Hash>, i: nat, b: seq<Hash>, j: nat, out: seq<Hash>)
    requires Strict(a) && Strict(b) && i < |a| && j < |b| && Merged(a, i, b, j, out)
    ensures a[i] < b[j] ==> Merged(a, i + 1, b, j, out + [a[i]])
    ensures a[i] > b[j] ==> Merged(a, i, b, j + 1, out + [b[j]])
    ensures a[i] == b[j] ==> Merged(a, i + 1, b, j + 1, out + [a[i]])
  {
    TakeNext(a, i);
    TakeNext(b, j);
    StrictSnoc(out, a[i]);
    StrictSnoc(out, b[j]);
  }

  lemma TakeNext(s: seq<int>, i: nat)
    requires i < |s|
    ensures s[..i + 1] == s[..i] + [s[i]] && Elements(s[..i + 1]) == Elements(s[..i]) + {s[i]}
  {
    assert s[..i + 1] == s[..i] + [s[i]];
    ElementsSnoc(s[..i], s[i]);
  }

  lemma MergeTail(a: seq<Hash>, i: nat, b: seq<Hash>, j: nat, out: seq<Hash>)
    requires Strict(a) && Strict(b) && i <= |a| && j <= |b| && (i == |a| || j == |b|) && Merged(a, i, b, j, out)
    ensures var all := out + a[i..] + b[j..]; Strict(all) && Elements(all) == Elements(a) + Elements(b)
  {
    ElementsSplit(a, i);
    ElementsSplit(b, j);
    ElementsConcat(out, a[i..]);
    ElementsConcat(out + a[i..], b[j..]);
  }

  /** Keeps, in order, the hashes that are not victims. */
  method Filter(s: seq<Hash>, victims: set<Hash>) returns (out: seq<Hash>)
    ensures Strict(s) ==> Strict(out)
    ensures Elements(out) == Elements(s) - victims
  {
    out := [];
    for r := 0 to |s|
      invariant Elements(out) == Elements(s[..r]) - victims
      invariant Strict(s) ==> Strict(out)
      invariant out != [] ==> out[|out| - 1] in s[..r]
    {
      TakeNext(s, r);
      if s[r] !in victims {
        if Strict(s) { StrictSnoc(out, s[r]); }
        ElementsSnoc(out, s[r]);
        out := out + [s[r]];
      }
    }
    assert s[..|s|] == s;
  }

  /** The prefixes of the hashes in both lists, ascending, each once. */
  method PrefixValues(a: seq<Hash>, b: seq<Hash>, bits: nat) returns (values: seq<u64>)
    requires Strict(a) && Strict(b) && bits <= 64
    ensures Strict(values) && Elements(values) == Tops(Elements(a) + Elements(b), bits)
  {
    values := [];
    var i: nat, j: nat := 0, 0;
    var first := true;
    var prev: u64 := 0;
    ghost var last: Hash := 0;
    while i < |a| || j < |b|
      invariant i <= |a| && j <= |b|
      invariant first <==> values == []
      invariant !first ==> prev == values[|values| - 1] == Top(last, bits)
      invariant (i < |a| ==> last <= a[i]) && (j < |b| ==> last <= b[j])
      invariant Strict(values) && Elements(values) == Tops(Elements(a[..i]) + Elements(b[..j]), bits)
      decreases |a| - i + |b| - j
    {
      var h;
      ghost var seen := Elements(a[..i]) + Elements(b[..j]);
      if j == |b| || (i < |a| && a[i] <= b[j]) {
        TakeNext(a, i);
        h, i := a[i], i + 1;
      } else {
        TakeNext(b, j);
        h, j := b[j], j + 1;
      }
      assert Elements(a[..i]) + Elements(b[..j]) == seen + {h};
      TopsAdd(seen, h, bits);
      KeyFromTop(h, bits);
      TopMono(last, h, bits);
      var v := Shr(Key64(h), 64 - bits);
      last := h;
      if !first && v == prev {
        assert v in Elements(values);
      } else {
        StrictSnoc(values, v);
        first, prev := false, v;
        values := values + [v];
      }
    }
    assert a[..i] == a && b[..j] == b;
  }

  lemma TopsAdd(seen: set<int>, h: Hash, bits: nat)
    requires bits <= 256
    ensures Tops(seen + {h}, bits) == Tops(seen, bits) + {Top(h, bits)}
  {
  }
}
