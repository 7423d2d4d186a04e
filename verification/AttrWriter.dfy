/**
 Writing an object's attributes where they may not fit: fields are dropped, the audit fields first
 and then the longest, until they do.
 */
module AttrWriter {
  import Words
  import opened ObjAttrs

  function Ascii(s: string): Str
    requires forall i | 0 <= i < |s| :: s[i] < 128 as char
  {
    seq(|s|, i requires 0 <= i < |s| => s[i] as int)
  }

  /** The keys a write never drops. */
  predicate Protected(k: Str) {
    k == Ascii("outputid") || k == Ascii("compression") || k == Ascii("storedsha256")
  }

  /** A key the source can drop: its search takes the empty key for none. */
  predicate Droppable(k: Str) {
    !Protected(k) && k != []
  }

  /** One step of the search for the longest optional value. */
  function Longer(meta: map<Str, Str>, longest: Str, k: Str): Str
    requires k in meta && (longest != [] ==> longest in meta)
  {
    if !Protected(k) && (longest == [] || |meta[k]| > |meta[longest]|) then k else longest
  }

  /** The search over the keys of meta in the order they come up. */
  function Longest(meta: map<Str, Str>, order: seq<Str>): (r: Str)
    requires forall k | k in order :: k in meta
    ensures r != [] ==> r in meta && Droppable(r)
  {
    if order == [] then [] else
    var n := |order| - 1;
    assert order[n] in order;
    Longer(meta, Longest(meta, order[..n]), order[n])
  }

  /** r is a droppable key of those in order with a longest value, or empty and there is none. */
  ghost predicate IsLongest(meta: map<Str, Str>, order: seq<Str>, r: Str)
    requires forall k | k in order :: k in meta
  {
    if r == [] then forall k | k in order :: !Droppable(k)
    else r in order && Droppable(r) && r in meta && forall k | k in order && Droppable(k) :: |meta[k]| <= |meta[r]|
  }

  lemma {:induction false} LongestIs(meta: map<Str, Str>, order: seq<Str>)
    requires (forall k | k in order :: k in meta) && [] !in order
    ensures IsLongest(meta, order, Longest(meta, order))
  {
    hide Protected;
    if order != [] {
      var n := |order| - 1;
      LongestIs(meta, order[..n]);
      assert forall k | k in order :: k == order[n] || k in order[..n];
    }
  }

  /**
   With an empty key in the map the search may come back empty-handed although it could drop a
   key: the empty key, found last and longest, looks like none found.
   */
  lemma EmptyKeyHides()
    ensures var a := [97 as Words.byte];
            var meta: map<Str, Str> := map[a := [], [] := [120]];
            Lists([a, []], meta) && Longest(meta, [a, []]) == [] && Droppable(a)
  {
    var a := [97 as Words.byte];
    var meta: map<Str, Str> := map[a := [], [] := [120]];
    var order: seq<Str> := [a, []];
    assert order[..1] == [a] && order[..1][..0] == [];
    assert |Ascii("outputid")| == 8 && |Ascii("compression")| == 11 && |Ascii("storedsha256")| == 12;
    assert Longest(meta, [a]) == a;
  }

  /** When no order hides a droppable key: the empty key is absent, or no longer than some droppable one. */
  ghost predicate Findable(meta: map<Str, Str>) {
    [] in meta ==>
      (exists k | k in meta :: Droppable(k) && |meta[k]| >= |meta[[]]|) || (forall k | k in meta :: !Droppable(k))
  }

  /** Once a longest droppable key came up, what the search holds is as long. */
  lemma {:induction false} HoldsLongest(meta: map<Str, Str>, order: seq<Str>, m: Str)
    requires (forall k | k in order :: k in meta) && m in order && Droppable(m)
    requires forall k | k in meta && !Protected(k) :: |meta[k]| <= |meta[m]|
    ensures var r := Longest(meta, order); r != [] && r in order && |meta[r]| == |meta[m]|
  {
    hide Protected;
    var n := |order| - 1;
    assert order[n] in order;
    assert forall k | k in order :: k == order[n] || k in order[..n];
    if m in order[..n] {
      HoldsLongest(meta, order[..n], m);
    } else {
      LongestInOrder(meta, order[..n]);
    }
  }

  lemma {:induction false} LongestInOrder(meta: map<Str, Str>, order: seq<Str>)
    requires forall k | k in order :: k in meta
    ensures Longest(meta, order) != [] ==> Longest(meta, order) in order
  {
    hide Protected;
    if order != [] { LongestInOrder(meta, order[..|order| - 1]); }
  }

  ghost function Listing(s: set<Str>): (r: seq<Str>)
    ensures (forall k :: k in r <==> k in s) && (forall i, j | 0 <= i < j < |r| :: r[i] != r[j])
  {
    if s == {} then [] else
    var k :| k in s;
    Listing(s - {k}) + [k]
  }

  /** The exact condition: every order finds a longest droppable key if and only if meta is findable. */
  lemma {:induction false} FindsLongestIff(meta: map<Str, Str>)
    ensures (forall order | Lists(order, meta) :: IsLongest(meta, order, Longest(meta, order))) <==> Findable(meta)
  {
    hide Protected;
    if Findable(meta) {
      forall order | Lists(order, meta)
        ensures IsLongest(meta, order, Longest(meta, order))
      {
        FindableFinds(meta, order);
      }
    } else {
      var order := Listing(meta.Keys - {[]}) + [[]];
      HiddenAtEnd(meta, order);
    }
  }

  lemma {:induction false} FindableFinds(meta: map<Str, Str>, order: seq<Str>)
    requires Findable(meta) && Lists(order, meta)
    ensures IsLongest(meta, order, Longest(meta, order))
  {
    hide Protected, Longest;
    if [] !in meta {
      LongestIs(meta, order);
    } else if d :| d in meta && Droppable(d) && |meta[d]| >= |meta[[]]| {
      var m := LongestOf(meta, order, d);
      HoldsLongest(meta, order, m);
    }
  }

  /** A droppable key at least as long as any optional one, from one as long as the empty key. */
  lemma {:induction false} LongestOf(meta: map<Str, Str>, order: seq<Str>, d: Str) returns (m: Str)
    requires Lists(order, meta) && d in meta && Droppable(d) && ([] in meta ==> |meta[d]| >= |meta[[]]|)
    ensures m in meta && Droppable(m) && forall k | k in meta && !Protected(k) :: |meta[k]| <= |meta[m]|
  {
    hide Protected;
    m := d;
    for i := 0 to |order|
      invariant m in meta && Droppable(m) && |meta[m]| >= |meta[d]|
      invariant forall k | k in order[..i] && Droppable(k) :: |meta[k]| <= |meta[m]|
    {
      assert order[i] in order;
      if Droppable(order[i]) && |meta[order[i]]| > |meta[m]| { m := order[i]; }
    }
    assert order[..|order|] == order;
  }

  lemma ListsAtEnd(meta: map<Str, Str>)
    requires [] in meta
    ensures Lists(Listing(meta.Keys - {[]}) + [[]], meta)
  {
    hide Listing;
  }

  lemma {:induction false} HiddenAtEnd(meta: map<Str, Str>, order: seq<Str>)
    requires !Findable(meta) && order == Listing(meta.Keys - {[]}) + [[]]
    ensures Lists(order, meta) && !IsLongest(meta, order, Longest(meta, order))
  {
    hide Protected, Listing, Lists;
    ListsAtEnd(meta);
    EmptyIsLast(meta, Listing(meta.Keys - {[]}));
  }

  lemma {:induction false} EmptyIsLast(meta: map<Str, Str>, front: seq<Str>)
    requires !Findable(meta) && forall k :: k in front <==> k in meta && k != []
    ensures Longest(meta, front + [[]]) == [] && exists d | d in front :: Droppable(d)
  {
    hide Protected, Longest;
    LongestIs(meta, front);
    LongestLast(meta, front, []);
    var d :| d in meta && Droppable(d);
    assert d in front;
    EmptyIsOptional();
  }

  lemma EmptyIsOptional()
    ensures !Protected([])
  {
    assert |Ascii("outputid")| == 8 && |Ascii("compression")| == 11 && |Ascii("storedsha256")| == 12;
  }

  lemma LongestLast(meta: map<Str, Str>, front: seq<Str>, k: Str)
    requires k in meta && forall x | x in front :: x in meta
    ensures Longest(meta, front + [k]) == Longer(meta, Longest(meta, front), k)
  {
    assert (front + [k])[..|front|] == front;
  }

  datatype Outcome = Stored | NoSpace | Failed

  /** The inner loop of writeObjAttrs, over the map in any order. */
  method FindLongest(meta: map<Str, Str>) returns (longest: Str, ghost order: seq<Str>)
    ensures Lists(order, meta) && longest == Longest(meta, order)
    ensures longest != [] ==> longest in meta && Droppable(longest)
  {
    hide Protected;
    longest, order := [], [];
    var left := meta.Keys;
    while left != {}
      invariant left <= meta.Keys && forall k :: k in order <==> k in meta && k !in left
      invariant forall i, j | 0 <= i < j < |order| :: order[i] != order[j]
      invariant longest == Longest(meta, order)
      decreases |left|
    {
      var k: Str :| k in left;
      LongestLast(meta, order, k);
      longest := Longer(meta, longest, k);
      order, left := order + [k], left - {k};
    }
  }

  // The drops of a write, for every order the map may come up in at each of them.

  /** One drop: the search over this order found a key, and it is gone. */
  ghost predicate DropsOne(meta: map<Str, Str>, order: seq<Str>, next: map<Str, Str>) {
    Lists(order, meta) && Longest(meta, order) != [] && next == meta - {Longest(meta, order)}
  }

  /** Drops one after another, from meta. */
  ghost predicate RunFrom(meta: map<Str, Str>, metas: seq<map<Str, Str>>, orders: seq<seq<Str>>) {
    && |metas| == |orders| + 1 && metas[0] == meta
    && forall t | 0 <= t < |orders| :: DropsOne(metas[t], orders[t], metas[t + 1])
  }

  /** A run that ended because the last search found nothing. */
  ghost predicate GaveUp(meta: map<Str, Str>, metas: seq<map<Str, Str>>, orders: seq<seq<Str>>, last: seq<Str>) {
    RunFrom(meta, metas, orders) && Lists(last, metas[|orders|]) && Longest(metas[|orders|], last) == []
  }

  /** Every drop was of a longest droppable value. */
  ghost predicate LongestFirst(metas: seq<map<Str, Str>>, orders: seq<seq<Str>>) {
    |metas| == |orders| + 1 && forall t | 0 <= t < |orders| :: DropsLongest(metas[t], orders[t])
  }

  ghost predicate DropsLongest(meta: map<Str, Str>, order: seq<Str>) {
    Lists(order, meta) && IsLongest(meta, order, Longest(meta, order))
  }

  ghost predicate NothingLeft(meta: map<Str, Str>) {
    forall k | k in meta :: !Droppable(k)
  }

  /** The empty key is absent, or no droppable value is shorter than its value. */
  ghost predicate NoneShorter(meta: map<Str, Str>) {
    [] in meta ==> forall k | k in meta && Droppable(k) :: |meta[k]| >= |meta[[]]|
  }

  /** The empty key is absent, or the droppable values shorter than its value are all as long. */
  ghost predicate ShorterAlike(meta: map<Str, Str>) {
    [] in meta ==> forall j, k | Shorter(meta, j) && Shorter(meta, k) :: |meta[j]| == |meta[k]|
  }

  predicate Shorter(meta: map<Str, Str>, k: Str) {
    k in meta && Droppable(k) && [] in meta && |meta[k]| < |meta[[]]|
  }

  /** What a write may have left of the metadata: droppable fields taken out, the longest first. */
  ghost predicate Trimmed(was: map<Str, Str>, now: map<Str, Str>) {
    && (forall k | k in now :: k in was && now[k] == was[k])
    && (forall k | k in was && !Droppable(k) :: k in now)
    && (ShorterAlike(was) ==> forall d, k | d in was && d !in now && k in now && Droppable(k) :: |was[k]| <= |was[d]|)
  }

  /** A part of a map with its empty key meets what the map met. */
  lemma TrimmedMeets(was: map<Str, Str>, now: map<Str, Str>)
    requires Trimmed(was, now)
    ensures NoneShorter(was) ==> NoneShorter(now)
    ensures ShorterAlike(was) ==> ShorterAlike(now)
  {
    hide Protected;
    EmptyIsOptional();
    assert forall k | Shorter(now, k) :: Shorter(was, k);
  }

  /** With the short values alike, whatever a search finds is a longest one. */
  lemma {:induction false} AlikeFinds(meta: map<Str, Str>, order: seq<Str>)
    requires ShorterAlike(meta) && Lists(order, meta) && Longest(meta, order) != []
    ensures DropsLongest(meta, order)
  {
    hide Protected, Longest;
    if Findable(meta) {
      FindableFinds(meta, order);
    } else {
      LongestInOrder(meta, order);
      assert forall k | k in meta && Droppable(k) :: Shorter(meta, k);
    }
  }

  lemma {:induction false} TrimmedNext(was: map<Str, Str>, now: map<Str, Str>, order: seq<Str>, next: map<Str, Str>)
    requires Trimmed(was, now) && DropsOne(now, order, next)
    ensures Trimmed(was, next)
  {
    TrimmedMeets(was, now);
    hide Protected, Longest, ShorterAlike;
    if ShorterAlike(was) { AlikeFinds(now, order); }
  }

  /** Every run trims. */
  lemma {:induction false} RunTrims(meta: map<Str, Str>, metas: seq<map<Str, Str>>, orders: seq<seq<Str>>, t: nat)
    requires RunFrom(meta, metas, orders) && t <= |orders|
    ensures Trimmed(meta, metas[t])
  {
    hide Trimmed, DropsOne;
    if t == 0 {
      TrimmedNothing(meta);
    } else {
      RunTrims(meta, metas, orders, t - 1);
      TrimmedNext(meta, metas[t - 1], orders[t - 1], metas[t]);
    }
  }

  /** A search that finds nothing while no droppable value is short has nothing to find. */
  lemma {:induction false} NoneLeft(meta: map<Str, Str>, order: seq<Str>)
    requires NoneShorter(meta) && Lists(order, meta) && Longest(meta, order) == []
    ensures NothingLeft(meta)
  {
    hide Protected, Longest;
    FindableFinds(meta, order);
  }

  /** The values as long as the empty key's, or longer, can go first, and nothing else with them. */
  lemma {:induction false} DropLong(meta: map<Str, Str>) returns (metas: seq<map<Str, Str>>, orders: seq<seq<Str>>)
    requires [] in meta
    ensures RunFrom(meta, metas, orders)
    ensures var last := metas[|orders|];
            && (forall k | k in last && Droppable(k) :: Shorter(last, k))
            && (forall k | k in last :: k in meta && last[k] == meta[k])
            && (forall k | k in meta && (Shorter(meta, k) || k == []) :: k in last)
    decreases |meta|
  {
    hide Protected, Longest, DropsOne, RunFrom;
    if d :| d in meta && Droppable(d) && |meta[d]| >= |meta[[]]| {
      var order, next := DropALong(meta, d);
      var rest, others := DropLong(next);
      metas, orders := [meta] + rest, [order] + others;
      RunCons(meta, order, next, rest, others);
    } else {
      metas, orders := [meta], [];
      RunNothing(meta);
    }
  }

  lemma RunNothing(meta: map<Str, Str>)
    ensures RunFrom(meta, [meta], [])
  {
  }

  /** One of them goes. */
  lemma {:induction false} DropALong(meta: map<Str, Str>, d: Str) returns (order: seq<Str>, next: map<Str, Str>)
    requires [] in meta && d in meta && Droppable(d) && |meta[d]| >= |meta[[]]|
    ensures DropsOne(meta, order, next) && |next| < |meta| && [] in next
    ensures forall k | k in next :: k in meta && next[k] == meta[k]
    ensures forall k | Shorter(meta, k) :: Shorter(next, k)
  {
    hide Protected, Longest, Listing;
    order := Listing(meta.Keys);
    FindableFinds(meta, order);
    next := meta - {Longest(meta, order)};
    MapMinus(meta, Longest(meta, order));
  }

  lemma MapMinus(meta: map<Str, Str>, k: Str)
    requires k in meta
    ensures |meta - {k}| == |meta| - 1
  {
    assert (meta - {k}).Keys == meta.Keys - {k};
  }

  lemma RunCons(meta: map<Str, Str>, order: seq<Str>, next: map<Str, Str>, metas: seq<map<Str, Str>>, orders: seq<seq<Str>>)
    requires DropsOne(meta, order, next) && RunFrom(next, metas, orders)
    ensures RunFrom(meta, [meta] + metas, [order] + orders)
    ensures ([meta] + metas)[|[order] + orders|] == metas[|orders|]
  {
    hide DropsOne;
    assert forall t | 0 < t <= |orders| :: ([order] + orders)[t] == orders[t - 1];
  }

  lemma {:induction false} RunSnoc(meta: map<Str, Str>, metas: seq<map<Str, Str>>, orders: seq<seq<Str>>,
                                   order: seq<Str>, next: map<Str, Str>)
    requires RunFrom(meta, metas, orders) && DropsOne(metas[|orders|], order, next)
    ensures RunFrom(meta, metas + [next], orders + [order])
  {
    hide DropsOne;
  }

  /**
   Every run that gives up has dropped all it could if and only if no droppable value is shorter
   than that of the empty key.
   */
  lemma {:induction false} DropsAllIff(meta: map<Str, Str>)
    ensures (forall metas, orders, last | GaveUp(meta, metas, orders, last) :: NothingLeft(metas[|orders|])) <==>
            NoneShorter(meta)
  {
    hide Protected, Longest;
    if NoneShorter(meta) {
      forall metas, orders, last | GaveUp(meta, metas, orders, last)
        ensures NothingLeft(metas[|orders|])
      {
        RunTrims(meta, metas, orders, |orders|);
        TrimmedMeets(meta, metas[|orders|]);
        NoneLeft(metas[|orders|], last);
      }
    } else {
      var d :| d in meta && Droppable(d) && |meta[d]| < |meta[[]]|;
      var metas, orders := DropLong(meta);
      var end := metas[|orders|];
      assert Shorter(meta, d);
      var last := Listing(end.Keys - {[]}) + [[]];
      ShortHidden(end, d, last);
      assert GaveUp(meta, metas, orders, last);
    }
  }

  lemma {:induction false} ShortHidden(meta: map<Str, Str>, d: Str, last: seq<Str>)
    requires [] in meta && d in meta && Droppable(d) && (forall k | k in meta && Droppable(k) :: Shorter(meta, k))
    requires last == Listing(meta.Keys - {[]}) + [[]]
    ensures Lists(last, meta) && Longest(meta, last) == []
  {
    hide Protected, Listing, Longest;
    ListsAtEnd(meta);
    EmptyIsLast(meta, Listing(meta.Keys - {[]}));
  }

  /** A short key that comes up after the empty one is taken, whatever came before. */
  lemma {:induction false} ShortTaken(meta: map<Str, Str>, k: Str) returns (order: seq<Str>)
    requires [] in meta && k in meta && Droppable(k) && (forall x | x in meta && Droppable(x) :: Shorter(meta, x))
    ensures Lists(order, meta) && Longest(meta, order) == k
  {
    hide Protected, Listing, Longest;
    var some := meta - {k};
    var front := Listing(some.Keys - {[]}) + [[]];
    order := front + [k];
    ListsAtEnd(some);
    FrontSame(meta, some, front);
    if exists x | x in some :: Droppable(x) {
      var x :| x in some && Droppable(x);
      assert forall y | y in some && Droppable(y) :: Shorter(meta, y) && Shorter(some, y);
      ShortHidden(some, x, front);
    } else {
      LongestDroppable(some, front);
    }
    LongestLast(meta, front, k);
  }

  /** The search looks only at the keys it is given. */
  lemma {:induction false} FrontSame(meta: map<Str, Str>, some: map<Str, Str>, order: seq<Str>)
    requires (forall k | k in some :: k in meta && some[k] == meta[k]) && forall k | k in order :: k in some
    ensures Longest(meta, order) == Longest(some, order)
  {
    hide Protected;
    if order != [] { FrontSame(meta, some, order[..|order| - 1]); }
  }

  lemma LongestDroppable(meta: map<Str, Str>, order: seq<Str>)
    requires (forall k | k in order :: k in meta) && NothingLeft(meta)
    ensures Longest(meta, order) == []
  {
    hide Protected;
  }

  /**
   Every run drops the longest first if and only if the droppable values shorter than that of
   the empty key are all as long.
   */
  lemma {:induction false} LongestFirstIff(meta: map<Str, Str>)
    ensures (forall metas, orders | RunFrom(meta, metas, orders) :: LongestFirst(metas, orders)) <==> ShorterAlike(meta)
  {
    hide Protected, Longest;
    if ShorterAlike(meta) {
      forall metas, orders | RunFrom(meta, metas, orders)
        ensures LongestFirst(metas, orders)
      {
        AlikeRun(meta, metas, orders);
      }
    } else {
      var j, k :| Shorter(meta, j) && Shorter(meta, k) && |meta[j]| < |meta[k]|;
      var metas, orders := DropLong(meta);
      var end := metas[|orders|];
      var order := ShortTaken(end, j);
      var next := end - {j};
      RunSnoc(meta, metas, orders, order, next);
      var metas', orders' := metas + [next], orders + [order];
      assert metas'[|orders|] == end && orders'[|orders|] == order;
      assert !DropsLongest(end, order) by { assert k in order && Droppable(k); }
      assert !LongestFirst(metas', orders');
    }
  }

  lemma {:induction false} AlikeRun(meta: map<Str, Str>, metas: seq<map<Str, Str>>, orders: seq<seq<Str>>)
    requires RunFrom(meta, metas, orders) && ShorterAlike(meta)
    ensures LongestFirst(metas, orders)
  {
    hide Protected, Longest, DropsLongest, ShorterAlike;
    forall t | 0 <= t < |orders|
      ensures DropsLongest(metas[t], orders[t])
    {
      RunTrims(meta, metas, orders, t);
      TrimmedMeets(meta, metas[t]);
      assert DropsOne(metas[t], orders[t], metas[t + 1]);
      AlikeFinds(metas[t], orders[t]);
    }
  }

  /**
   writeObjAttrs, for any setter: it ends; what it stored last, or gave up on, is an encoding of
   `left`; no protected field is dropped; the audit fields go before any metadata, and nothing is
   dropped unless the first attempt found no space. Its drops are a run, so the longest go first
   and nothing droppable is left when it gives up exactly as LongestFirstIff and DropsAllIff say.
   */
  method WriteObjAttrs(attrs: Attrs, setter: (nat, seq<Words.byte>) -> Outcome)
    returns (o: Outcome, left: Attrs, dropped: nat, ghost tries: nat, ghost sent: seq<Words.byte>,
             ghost metas: seq<map<Str, Str>>, ghost orders: seq<seq<Str>>)
    ensures tries >= 1 && EncodingOf(sent, left) && o == setter(tries - 1, sent)
    ensures RunFrom(attrs.meta, metas, orders) && left.meta == metas[|orders|]
    ensures Trimmed(attrs.meta, left.meta) && (left.audit == attrs.audit || left.audit == map[])
    ensures left.meta != attrs.meta ==> left.audit == map[]
    ensures tries == 1 ==> left == attrs
    ensures left != attrs ==> exists buf :: EncodingOf(buf, attrs) && setter(0, buf).NoSpace?
    ensures o.NoSpace? ==> left.audit == map[] && exists last :: GaveUp(attrs.meta, metas, orders, last)
    ensures o.NoSpace? && NoneShorter(attrs.meta) ==> NothingLeft(left.meta)
    ensures dropped == |attrs.audit| - |left.audit| + |attrs.meta| - |left.meta|
  {
    hide Protected, Trimmed, Longest, Encode, Lists, Ordered, NoneShorter, NothingLeft, RunFrom, GaveUp, DropsOne;
    TrimmedNothing(attrs.meta);
    RunNothing(attrs.meta);
    left, dropped, tries := attrs, 0, 1;
    metas, orders := [attrs.meta], [];
    var buf, mk, ak := EncodeObjAttrs(left);
    sent := buf;
    assert EncodingOf(buf, attrs);
    o := setter(0, buf);
    if !o.NoSpace? { return; }
    var n := 1;
    if |attrs.audit| > 0 {
      dropped, left := |attrs.audit|, left.(audit := map[]);
      buf, mk, ak := EncodeObjAttrs(left);
      o := setter(n, buf);
      n, tries, sent := n + 1, tries + 1, buf;
    }
    if !o.NoSpace? { return; }
    var more;
    o, left, more, tries, sent, metas, orders := DropUntilFits(left, setter, n, o, sent);
    dropped := dropped + more;
  }

  /** The loop of writeObjAttrs, once the audit fields are gone. */
  method DropUntilFits(attrs: Attrs, setter: (nat, seq<Words.byte>) -> Outcome, start: nat, first: Outcome,
                       ghost buf0: seq<Words.byte>)
    returns (o: Outcome, left: Attrs, dropped: nat, ghost tries: nat, ghost sent: seq<Words.byte>,
             ghost metas: seq<map<Str, Str>>, ghost orders: seq<seq<Str>>)
    requires start >= 1 && EncodingOf(buf0, attrs) && first == setter(start - 1, buf0)
    ensures tries >= start && EncodingOf(sent, left) && o == setter(tries - 1, sent)
    ensures RunFrom(attrs.meta, metas, orders) && left.meta == metas[|orders|] && left.audit == attrs.audit
    ensures Trimmed(attrs.meta, left.meta) && (tries == start ==> left == attrs)
    ensures o.NoSpace? ==> exists last :: GaveUp(attrs.meta, metas, orders, last)
    ensures o.NoSpace? && NoneShorter(attrs.meta) ==> NothingLeft(left.meta)
    ensures dropped == |attrs.meta| - |left.meta|
  {
    hide Protected, Trimmed, Longest, Lists, Ordered, NoneShorter, NothingLeft, RunFrom, GaveUp, DropsOne,
         EncodingOf, Encode;
    TrimmedNothing(attrs.meta);
    RunNothing(attrs.meta);
    o, left, dropped, tries, sent := first, attrs, 0, start, buf0;
    metas, orders := [attrs.meta], [];
    var n := start;
    while o.NoSpace?
      invariant n == tries >= start && EncodingOf(sent, left) && o == setter(tries - 1, sent)
      invariant |metas| == |orders| + 1 && RunFrom(attrs.meta, metas, orders) && left.meta == metas[|orders|]
      invariant Trimmed(attrs.meta, left.meta) && left.audit == attrs.audit && (tries == start ==> left == attrs)
      invariant dropped == |attrs.meta| - |left.meta|
      decreases |left.meta|, o.NoSpace?
    {
      var longest, order := FindLongest(left.meta);
      if longest == [] {
        GaveUpIs(attrs.meta, metas, orders, order);
        TrimmedMeets(attrs.meta, left.meta);
        if NoneShorter(attrs.meta) { NoneLeft(left.meta, order); }
        break;
      }
      var next := left.meta - {longest};
      DropsOneIs(left.meta, order);
      MapMinus(left.meta, longest);
      TrimmedNext(attrs.meta, left.meta, order, next);
      RunSnoc(attrs.meta, metas, orders, order, next);
      metas, orders := metas + [next], orders + [order];
      left := left.(meta := next);
      dropped := dropped + 1;
      var buf, mk, ak := EncodeObjAttrs(left);
      o := setter(n, buf);
      n, tries, sent := n + 1, tries + 1, buf;
    }
  }

  lemma DropsOneIs(meta: map<Str, Str>, order: seq<Str>)
    requires Lists(order, meta) && Longest(meta, order) != []
    ensures DropsOne(meta, order, meta - {Longest(meta, order)})
  {
  }

  lemma GaveUpIs(meta: map<Str, Str>, metas: seq<map<Str, Str>>, orders: seq<seq<Str>>, last: seq<Str>)
    requires RunFrom(meta, metas, orders) && Lists(last, metas[|orders|]) && Longest(metas[|orders|], last) == []
    ensures GaveUp(meta, metas, orders, last)
  {
  }

  lemma TrimmedNothing(meta: map<Str, Str>)
    ensures Trimmed(meta, meta)
  {
  }
}
