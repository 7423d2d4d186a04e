/**
 The nearest-first search over entries in time order: two cursors walk outward from the middle of
 a window and take the nearer side each time.
 */
module NearbyScan {
  import AddLog

  datatype Entry = Entry(key: AddLog.CompactKey, mtime: int)

  /** The caller's filter, if it has one. */
  datatype Filter = NoFilter | Skip(unwanted: AddLog.CompactKey -> bool)

  const SCAN_FACTOR := 8

  ghost predicate InOrder(entries: seq<Entry>) {
    forall i, j | 0 <= i < j < |entries| :: entries[i].mtime <= entries[j].mtime
  }

  /** Halving toward zero. */
  function Half(n: int): int {
    if n >= 0 then n / 2 else -(-n / 2)
  }

  function Dist(e: Entry, mid: int): (d: nat)
    ensures d == e.mtime - mid || d == mid - e.mtime
  {
    if e.mtime < mid then mid - e.mtime else e.mtime - mid
  }

  /** Nearer, or as near and no later. */
  predicate Before(a: Entry, b: Entry, mid: int) {
    Dist(a, mid) < Dist(b, mid) || (Dist(a, mid) == Dist(b, mid) && a.mtime <= b.mtime)
  }

  /** A search: a window around mid, and the keys it leaves out. */
  datatype Query = Query(start: int, end: int, excluded: set<AddLog.CompactKey>) {
    /** The middle of the window, to the whole second toward zero. */
    function Mid(): (m: int)
      ensures start + end >= 0 ==> 2 * m <= start + end <= 2 * m + 1
      ensures start + end < 0 ==> 2 * m - 1 <= start + end <= 2 * m
      ensures start <= end ==> start <= m <= end
    {
      Half(start + end)
    }

    predicate InWindow(e: Entry) { start <= e.mtime <= end }

    predicate Eligible(e: Entry) { InWindow(e) && e.key !in excluded }
  }

  /** The first position from lo on whose time is t or later; hi if there is none. */
  method FirstAtLeast(entries: seq<Entry>, lo: nat, hi: nat, t: int) returns (pos: nat)
    requires lo <= hi <= |entries| && InOrder(entries)
    ensures lo <= pos <= hi
    ensures forall i | lo <= i < pos :: entries[i].mtime < t
    ensures forall i | pos <= i < hi :: entries[i].mtime >= t
  {
    var a, b := lo, hi;
    while a < b
      invariant lo <= a <= b <= hi
      invariant forall i | lo <= i < a :: entries[i].mtime < t
      invariant forall i | b <= i < hi :: entries[i].mtime >= t
    {
      var m := (a + b) / 2;
      if entries[m].mtime >= t { b := m; } else { a := m + 1; }
    }
    pos := a;
  }

  /**
   seen lists positions of eligible entries, each once, the nearest first and the earliest first of
   those equally near.
   */
  ghost predicate Nearest(entries: seq<Entry>, q: Query, seen: seq<nat>) {
    && (forall i | 0 <= i < |seen| :: seen[i] < |entries| && q.Eligible(entries[seen[i]]))
    && (forall i, j | 0 <= i < j < |seen| :: seen[i] != seen[j] && Before(entries[seen[i]], entries[seen[j]], q.Mid()))
  }

  /** No eligible entry left out is nearer than one that was seen, or as near and earlier. */
  ghost predicate LeavesOnlyFarther(entries: seq<Entry>, q: Query, seen: seq<nat>)
    requires forall i | 0 <= i < |seen| :: seen[i] < |entries|
  {
    forall p, i | 0 <= p < |entries| && q.Eligible(entries[p]) && p !in seen && 0 <= i < |seen| ::
      Before(entries[seen[i]], entries[p], q.Mid())
  }

  /** The keys of the positions seen that the filter lets through, in the same order. */
  function Wanted(entries: seq<Entry>, f: Filter, seen: seq<nat>): (r: seq<AddLog.CompactKey>)
    requires forall i | 0 <= i < |seen| :: seen[i] < |entries|
    ensures |r| <= |seen| && (f.NoFilter? ==> |r| == |seen|)
  {
    if seen == [] then []
    else
      var n := |seen| - 1;
      var key := entries[seen[n]].key;
      Wanted(entries, f, seen[..n]) + if f.Skip? && f.unwanted(key) then [] else [key]
  }

  /** Every eligible position. */
  ghost function AllEligible(entries: seq<Entry>, q: Query): set<nat> {
    set p: nat | p < |entries| && q.Eligible(entries[p])
  }

  /** Where the cursors are: what lies between them is what was passed. */
  ghost predicate Between(entries: seq<Entry>, q: Query, lo: nat, hi: nat, left: int, right: nat, seen: seq<nat>) {
    && lo - 1 <= left < right <= hi <= |entries|
    && Nearest(entries, q, seen)
    && (forall i | 0 <= i < |seen| :: left < seen[i] < right)
    && (forall p | left < p < right && p < |entries| && q.Eligible(entries[p]) :: p in seen)
    && (left >= lo ==> forall i | 0 <= i < |seen| :: Before(entries[seen[i]], entries[left], q.Mid()))
    && (right < hi ==> forall i | 0 <= i < |seen| :: Before(entries[seen[i]], entries[right], q.Mid()))
  }

  /** The window and its middle, as positions. */
  ghost predicate Window(entries: seq<Entry>, q: Query, lo: nat, hi: nat, mid: nat) {
    && InOrder(entries) && lo <= mid <= hi <= |entries|
    && (forall p | 0 <= p < |entries| :: q.InWindow(entries[p]) <==> lo <= p < hi)
    && (forall p | lo <= p < mid :: entries[p].mtime < q.Mid())
    && (forall p | mid <= p < hi :: entries[p].mtime >= q.Mid())
  }

  function Seen(entries: seq<Entry>, q: Query, seen: seq<nat>, p: nat): seq<nat>
    requires p < |entries|
  {
    if entries[p].key in q.excluded then seen else seen + [p]
  }

  lemma {:induction false} SeenIsNearest(entries: seq<Entry>, q: Query, seen: seq<nat>, p: nat)
    requires Nearest(entries, q, seen) && p < |entries| && q.InWindow(entries[p]) && p !in seen
    requires forall i | 0 <= i < |seen| ::
               seen[i] < |entries| && Before(entries[seen[i]], entries[p], q.Mid())
    ensures Nearest(entries, q, Seen(entries, q, seen, p))
  {
    hide Query.Mid, Before;
  }

  lemma BeforeTrans(a: Entry, b: Entry, c: Entry, mid: int)
    requires Before(a, b, mid) && Before(b, c, mid)
    ensures Before(a, c, mid)
  {
  }

  /** The nearer of the two cursors comes before what is left on both sides. */
  lemma NextInOrder(entries: seq<Entry>, q: Query, lo: nat, hi: nat, mid: nat, left: int, right: nat)
    requires Window(entries, q, lo, hi, mid) && lo - 1 <= left < mid <= right <= hi
    ensures left - 1 >= lo ==> Before(entries[left], entries[left - 1], q.Mid())
    ensures right + 1 < hi ==> Before(entries[right], entries[right + 1], q.Mid())
    ensures left >= lo && right < hi ==>
              if Dist(entries[left], q.Mid()) <= Dist(entries[right], q.Mid())
              then Before(entries[left], entries[right], q.Mid()) else Before(entries[right], entries[left], q.Mid())
  {
    hide Query.Mid;
  }

  /** The left cursor may pass its entry when that is the nearer one. */
  lemma {:induction false} PassLeft(entries: seq<Entry>, q: Query, lo: nat, hi: nat, mid: nat, left: int,
                                    right: nat, seen: seq<nat>)
    requires Window(entries, q, lo, hi, mid) && Between(entries, q, lo, hi, left, right, seen) && lo <= left < mid <= right
    requires right < hi ==> Dist(entries[left], q.Mid()) <= Dist(entries[right], q.Mid())
    ensures Between(entries, q, lo, hi, left - 1, right, Seen(entries, q, seen, left))
  {
    hide Query.Mid, Nearest, InOrder, Before, Dist;
    NextInOrder(entries, q, lo, hi, mid, left, right);
    NearestIn(entries, q, seen);
    SeenIsNearest(entries, q, seen, left);
    if left - 1 >= lo {
      forall i | 0 <= i < |seen|
        ensures Before(entries[seen[i]], entries[left - 1], q.Mid())
      {
        BeforeTrans(entries[seen[i]], entries[left], entries[left - 1], q.Mid());
      }
    }
    var seen' := Seen(entries, q, seen, left);
    if |seen'| > |seen| { assert seen'[|seen|] == left; }
  }

  lemma NearestIn(entries: seq<Entry>, q: Query, seen: seq<nat>)
    requires Nearest(entries, q, seen)
    ensures forall i | 0 <= i < |seen| :: seen[i] < |entries|
  {
  }

  lemma {:induction false} PassRight(entries: seq<Entry>, q: Query, lo: nat, hi: nat, mid: nat, left: int,
                                     right: nat, seen: seq<nat>)
    requires Window(entries, q, lo, hi, mid) && Between(entries, q, lo, hi, left, right, seen) && left < mid <= right < hi
    requires left >= lo ==> Dist(entries[right], q.Mid()) < Dist(entries[left], q.Mid())
    ensures Between(entries, q, lo, hi, left, right + 1, Seen(entries, q, seen, right))
  {
    hide Query.Mid, Nearest, InOrder, Before, Dist;
    NextInOrder(entries, q, lo, hi, mid, left, right);
    NearestIn(entries, q, seen);
    SeenIsNearest(entries, q, seen, right);
    if right + 1 < hi {
      forall i | 0 <= i < |seen|
        ensures Before(entries[seen[i]], entries[right + 1], q.Mid())
      {
        BeforeTrans(entries[seen[i]], entries[right], entries[right + 1], q.Mid());
      }
    }
    var seen' := Seen(entries, q, seen, right);
    if |seen'| > |seen| { assert seen'[|seen|] == right; }
  }

  /** What lies outside the cursors is no nearer than what was seen between them. */
  lemma {:induction false} OutsideIsFarther(entries: seq<Entry>, q: Query, lo: nat, hi: nat, mid: nat,
                                            left: int, right: nat, seen: seq<nat>)
    requires Window(entries, q, lo, hi, mid) && Between(entries, q, lo, hi, left, right, seen) && left < mid <= right
    ensures LeavesOnlyFarther(entries, q, seen)
  {
    hide Query.Mid;
    forall p, i | 0 <= p < |entries| && q.Eligible(entries[p]) && p !in seen && 0 <= i < |seen|
      ensures Before(entries[seen[i]], entries[p], q.Mid())
    {
      assert p <= left || p >= right;
    }
  }

  /** A list without repeats is as long as the set of what it lists. */
  lemma {:induction false} ListedSize(seen: seq<nat>, all: set<nat>)
    requires forall i, j | 0 <= i < j < |seen| :: seen[i] != seen[j]
    requires forall i | 0 <= i < |seen| :: seen[i] in all
    ensures |seen| <= |all| && ((forall p | p in all :: p in seen) ==> |seen| == |all|)
    decreases |seen|
  {
    if seen == [] {
      if all != {} {
        var p :| p in all;
        assert p !in seen;
      }
    } else {
      var n := |seen| - 1;
      ListedSize(seen[..n], all - {seen[n]});
    }
  }

  lemma BetweenNothing(entries: seq<Entry>, q: Query, lo: nat, hi: nat, m: nat)
    requires lo <= m <= hi <= |entries|
    ensures Between(entries, q, lo, hi, m - 1, m, [])
  {
  }

  lemma BetweenListed(entries: seq<Entry>, q: Query, lo: nat, hi: nat, left: int, right: nat, seen: seq<nat>)
    requires Between(entries, q, lo, hi, left, right, seen)
    ensures Nearest(entries, q, seen) && forall i | 0 <= i < |seen| :: seen[i] < |entries|
  {
  }

  lemma {:induction false} AllSeen(entries: seq<Entry>, q: Query, lo: nat, hi: nat, m: nat, left: int,
                                   right: nat, seen: seq<nat>)
    requires Window(entries, q, lo, hi, m) && Between(entries, q, lo, hi, left, right, seen) && left < lo && right >= hi
    ensures forall p | p in AllEligible(entries, q) :: p in seen
  {
  }

  lemma {:induction false} WantedNext(entries: seq<Entry>, f: Filter, seen: seq<nat>, p: nat)
    requires p < |entries| && forall i | 0 <= i < |seen| :: seen[i] < |entries|
    ensures Wanted(entries, f, seen + [p]) ==
            Wanted(entries, f, seen) + if f.Skip? && f.unwanted(entries[p].key) then [] else [entries[p].key]
  {
    assert (seen + [p])[..|seen|] == seen;
  }

  /**
   nearbyKeysLocked. seen is every position it examined: the nearest eligible ones, in order. With
   no filter all their keys are returned, up to the limit; a filter is asked about each once, and
   about no more than SCAN_FACTOR times the limit.
   */
  method NearbyKeys(entries: seq<Entry>, q: Query, limit: int, f: Filter)
    returns (keys: seq<AddLog.CompactKey>, ghost seen: seq<nat>)
    requires InOrder(entries)
    ensures Nearest(entries, q, seen) && LeavesOnlyFarther(entries, q, seen)
    ensures keys == Wanted(entries, f, seen)
    ensures |keys| <= if limit > 0 then limit else 0
    ensures f.NoFilter? && limit > 0 ==>
              |keys| == if |AllEligible(entries, q)| < limit then |AllEligible(entries, q)| else limit
    ensures f.Skip? && limit > 0 ==> |seen| <= limit * SCAN_FACTOR
    ensures limit > 0 && |keys| < limit && (f.Skip? ==> |seen| < limit * SCAN_FACTOR) ==>
              forall p | p in AllEligible(entries, q) :: p in seen
  {
    keys, seen := [], [];
    if limit <= 0 || |entries| == 0 {
      assert |entries| == 0 ==> AllEligible(entries, q) == {};
      return;
    }
    var lo := FirstAtLeast(entries, 0, |entries|, q.start);
    var hi := FirstAtLeast(entries, 0, |entries|, q.end + 1);
    if lo >= hi {
      assert AllEligible(entries, q) == {};
      return;
    }
    var mid := q.Mid();
    var right := FirstAtLeast(entries, lo, hi, mid);
    keys, seen := Outward(entries, q, limit, f, lo, hi, right);
    ListedSize(seen, AllEligible(entries, q));
  }

  /** Takes whichever side is nearer; with only one side left, that one. */
  method TakeNearer(entries: seq<Entry>, q: Query, lo: nat, hi: nat, ghost m: nat, left: int, right: nat,
                    ghost seen: seq<nat>)
    returns (pos: nat, left': int, right': nat)
    requires lo - 1 <= left < m <= right <= hi <= |entries| && (left >= lo || right < hi)
    requires Window(entries, q, lo, hi, m) && Between(entries, q, lo, hi, left, right, seen)
    ensures lo - 1 <= left' < m <= right' <= hi && pos < |entries| && right' - left' == right - left + 1
    ensures Between(entries, q, lo, hi, left', right', Seen(entries, q, seen, pos))
  {
    hide Window, Between, Dist, Query.Mid;
    var mid := q.Mid();
    left', right' := left, right;
    if left < lo {
      pos, right' := right, right + 1;
      PassRight(entries, q, lo, hi, m, left, right, seen);
    } else if right >= hi {
      pos, left' := left, left - 1;
      PassLeft(entries, q, lo, hi, m, left, right, seen);
    } else if Dist(entries[left], mid) <= Dist(entries[right], mid) {
      pos, left' := left, left - 1;
      PassLeft(entries, q, lo, hi, m, left, right, seen);
    } else {
      pos, right' := right, right + 1;
      PassRight(entries, q, lo, hi, m, left, right, seen);
    }
  }

  /** The walk itself, from the middle of a window that is not empty. */
  method Outward(entries: seq<Entry>, q: Query, limit: nat, f: Filter, lo: nat, hi: nat, m: nat)
    returns (keys: seq<AddLog.CompactKey>, ghost seen: seq<nat>)
    requires lo <= m <= hi <= |entries| && Window(entries, q, lo, hi, m) && limit > 0
    ensures Nearest(entries, q, seen) && LeavesOnlyFarther(entries, q, seen)
    ensures keys == Wanted(entries, f, seen) && |keys| <= limit
    ensures f.Skip? ==> |seen| <= limit * SCAN_FACTOR
    ensures |keys| < limit && (f.Skip? ==> |seen| < limit * SCAN_FACTOR) ==>
              forall p | p in AllEligible(entries, q) :: p in seen
  {
    hide Window, Between, Nearest, LeavesOnlyFarther, AllEligible, Dist, Query.Mid, Before;
    keys, seen := [], [];
    var left: int, right: nat := m - 1, m;
    var examined, budget := 0, limit * SCAN_FACTOR;
    BetweenNothing(entries, q, lo, hi, m);
    while |keys| < limit && (left >= lo || right < hi)
      invariant lo - 1 <= left < m <= right <= hi <= |entries|
      invariant Between(entries, q, lo, hi, left, right, seen) && forall i | 0 <= i < |seen| :: seen[i] < |entries|
      invariant keys == Wanted(entries, f, seen) && |keys| <= limit
      invariant f.Skip? ==> examined == |seen| <= budget
      decreases left - lo + hi - right
    {
      ghost var l, r := left, right;
      var pos;
      pos, left, right := TakeNearer(entries, q, lo, hi, m, left, right, seen);
      if entries[pos].key in q.excluded { continue; }
      if f.Skip? && examined == budget {
        OutsideIsFarther(entries, q, lo, hi, m, l, r, seen);
        BetweenListed(entries, q, lo, hi, l, r, seen);
        return;
      }
      WantedNext(entries, f, seen, pos);
      seen := seen + [pos];
      if f.NoFilter? {
        keys := keys + [entries[pos].key];
        continue;
      }
      examined := examined + 1;
      var key := entries[pos].key;
      if f.unwanted(key) { continue; }
      keys := keys + [key];
    }
    OutsideIsFarther(entries, q, lo, hi, m, left, right, seen);
    BetweenListed(entries, q, lo, hi, left, right, seen);
    if left < lo && right >= hi { AllSeen(entries, q, lo, hi, m, left, right, seen); }
  }
}
