/**
 The sharded, byte-bounded cache: each shard a list in order of use with an index of its keys, and
 byte counters for the shard and for the whole.
 */
module LruCache {
  import opened Options

  datatype Entry<K, V> = Entry(key: K, val: V, size: nat)

  /** ll is in order of use, the latest first. items is the keys of the index into it. */
  datatype Shard<K, V> = Shard(ll: seq<Entry<K, V>>, items: set<K>, bytes: int)

  const SHARDS := 64

  function Sum<K, V>(ll: seq<Entry<K, V>>): nat {
    if ll == [] then 0 else
    var n := |ll| - 1;
    Sum(ll[..n]) + ll[n].size
  }

  ghost predicate Distinct<K, V>(ll: seq<Entry<K, V>>) {
    forall i, j | 0 <= i < j < |ll| :: ll[i].key != ll[j].key
  }

  ghost predicate HasKey<K, V>(ll: seq<Entry<K, V>>, k: K) {
    exists i | 0 <= i < |ll| :: ll[i].key == k
  }

  /** List and index hold the same keys, each once, and the counter is the sum of the sizes. */
  ghost predicate Whole<K(!new), V(!new)>(sh: Shard<K, V>) {
    && Distinct(sh.ll)
    && (forall k :: k in sh.items <==> HasKey(sh.ll, k))
    && sh.bytes == Sum(sh.ll)
  }

  /** Within the budget, or down to one entry. */
  ghost predicate Fits<K, V>(sh: Shard<K, V>, budget: int) {
    sh.bytes <= budget || |sh.ll| <= 1
  }

  function Find<K(==, !new), V(!new)>(ll: seq<Entry<K, V>>, k: K): (r: Option<Entry<K, V>>)
    ensures r.Some? ==> r.value.key == k && r.value in ll
    ensures r.None? ==> forall i | 0 <= i < |ll| :: ll[i].key != k
  {
    if ll == [] then None else
    if ll[0].key == k then Some(ll[0]) else Find(ll[1..], k)
  }

  function Without<K(==, !new), V(!new)>(ll: seq<Entry<K, V>>, k: K): (r: seq<Entry<K, V>>)
    ensures forall e :: e in r <==> e in ll && e.key != k
    ensures |r| <= |ll|
  {
    if ll == [] then [] else
    var n := |ll| - 1;
    Without(ll[..n], k) + if ll[n].key == k then [] else [ll[n]]
  }

  /** What stays: the longest run of the latest entries that fits, and at least one. */
  ghost predicate LongestFit<K, V>(ll: seq<Entry<K, V>>, budget: int, n: nat) {
    && n <= |ll| && (ll != [] ==> n >= 1)
    && (Sum(ll[..n]) <= budget || n <= 1)
    && (forall m | n < m <= |ll| :: Sum(ll[..m]) > budget)
  }

  lemma {:induction false} SumConcat<K(!new), V(!new)>(a: seq<Entry<K, V>>, b: seq<Entry<K, V>>)
    ensures Sum(a + b) == Sum(a) + Sum(b)
  {
    if b == [] {
      assert a + b == a;
    } else {
      var n := |b| - 1;
      SumConcat(a, b[..n]);
      assert (a + b)[..|a| + n] == a + b[..n];
    }
  }

  lemma {:induction false} SumWithout<K(!new), V(!new)>(ll: seq<Entry<K, V>>, k: K)
    requires Distinct(ll)
    ensures Sum(Without(ll, k)) == Sum(ll) - if Find(ll, k).Some? then Find(ll, k).value.size else 0
  {
    if ll != [] {
      var n := |ll| - 1;
      SumWithout(ll[..n], k);
      FindLast(ll, k);
      var w := Without(ll[..n], k);
      SumConcat(w, [ll[n]]);
      SumOne(ll[n]);
      assert w + [] == w;
    }
  }

  lemma SumOne<K(!new), V(!new)>(e: Entry<K, V>)
    ensures Sum([e]) == e.size
  {
  }

  lemma {:induction false} FindLast<K(!new), V(!new)>(ll: seq<Entry<K, V>>, k: K)
    requires Distinct(ll) && ll != []
    ensures var n := |ll| - 1;
            Find(ll, k) == if ll[n].key == k then Some(ll[n]) else Find(ll[..n], k)
  {
    var n := |ll| - 1;
    if n > 0 {
      FindLast(ll[1..], k);
      assert ll[..n][1..] == ll[1..][..n - 1];
    }
  }

  lemma {:induction false} WithoutDistinct<K(!new), V(!new)>(ll: seq<Entry<K, V>>, k: K)
    requires Distinct(ll)
    ensures Distinct(Without(ll, k))
  {
    if ll != [] {
      var n := |ll| - 1;
      WithoutDistinct(ll[..n], k);
      var w := Without(ll[..n], k);
      forall i | 0 <= i < |w|
        ensures w[i].key != ll[n].key
      {
        assert w[i] in ll[..n];
        var j :| 0 <= j < n && ll[..n][j] == w[i];
      }
    }
  }

  lemma {:induction false} WithoutFinds<K(!new), V(!new)>(ll: seq<Entry<K, V>>, k: K, x: K)
    requires Distinct(ll)
    ensures Find(Without(ll, k), x) == if x == k then None else Find(ll, x)
  {
    WithoutDistinct(ll, k);
    var w := Without(ll, k);
    var f, g := Find(w, x), Find(ll, x);
    if x != k {
      if g.Some? { FindIs(w, g.value); }
    }
  }

  lemma WithoutNone<K(!new), V(!new)>(k: K)
    ensures Without<K, V>([], k) == []
  {
  }

  lemma {:induction false} WithoutAbsent<K(!new), V(!new)>(ll: seq<Entry<K, V>>, k: K)
    requires forall j | 0 <= j < |ll| :: ll[j].key != k
    ensures Without(ll, k) == ll
  {
    hide Without;
    if ll == [] {
      WithoutNone<K, V>(k);
    } else {
      var n := |ll| - 1;
      var front := ll[..n];
      WithoutAbsent(front, k);
      WithoutLast(ll, k);
      assert ll == front + [ll[n]];
    }
  }

  lemma WithoutLast<K(!new), V(!new)>(ll: seq<Entry<K, V>>, k: K)
    requires ll != []
    ensures var (front, e) := (ll[..|ll| - 1], ll[|ll| - 1]);
            Without(ll, k) == if e.key == k then Without(front, k) else Without(front, k) + [e]
  {
  }

  lemma {:induction false} FindAbsent<K(!new), V(!new)>(ll: seq<Entry<K, V>>, k: K)
    requires forall j | 0 <= j < |ll| :: ll[j].key != k
    ensures Find(ll, k).None?
  {
    if ll != [] { FindAbsent(ll[1..], k); }
  }

  lemma {:induction false} FindIs<K(!new), V(!new)>(ll: seq<Entry<K, V>>, e: Entry<K, V>)
    requires Distinct(ll) && e in ll
    ensures Find(ll, e.key) == Some(e)
  {
    var f := Find(ll, e.key);
    var i :| 0 <= i < |ll| && ll[i] == e;
    if f.None? { assert false; }
    var j :| 0 <= j < |ll| && ll[j] == f.value;
  }

  /** A prefix of a list and its index. */
  lemma {:induction false} PrefixWhole<K(!new), V(!new)>(sh: Shard<K, V>, e: Entry<K, V>)
    requires Whole(sh) && sh.ll != [] && e == sh.ll[|sh.ll| - 1]
    ensures Whole(Shard(sh.ll[..|sh.ll| - 1], sh.items - {e.key}, sh.bytes - e.size))
  {
    hide Sum;
    var n := |sh.ll| - 1;
    var t := Shard(sh.ll[..n], sh.items - {e.key}, sh.bytes - e.size);
    SumLast(sh.ll);
    forall k
      ensures k in t.items <==> HasKey(t.ll, k)
    {
      if k in t.items {
        var i :| 0 <= i < |sh.ll| && sh.ll[i].key == k;
        assert t.ll[i] == sh.ll[i];
      }
      if i :| 0 <= i < |t.ll| && t.ll[i].key == k { assert sh.ll[i].key == k; }
    }
  }

  lemma SumLast<K(!new), V(!new)>(ll: seq<Entry<K, V>>)
    requires ll != []
    ensures Sum(ll) == Sum(ll[..|ll| - 1]) + ll[|ll| - 1].size
  {
  }

  /** A shard without its last entry. */
  function Shorter<K(==, !new), V(!new)>(sh: Shard<K, V>): Shard<K, V>
    requires sh.ll != []
  {
    var n := |sh.ll| - 1;
    Shard(sh.ll[..n], sh.items - {sh.ll[n].key}, sh.bytes - sh.ll[n].size)
  }

  /** What evictLocked leaves of a shard: entries go from the back until it fits or one is left. */
  function CutTo<K(==, !new), V(!new)>(sh: Shard<K, V>, budget: int): Shard<K, V>
    decreases |sh.ll|
  {
    if sh.bytes <= budget || |sh.ll| <= 1 then sh else CutTo(Shorter(sh), budget)
  }

  /** That is the longest run of the latest entries that fits, and at least one of them. */
  lemma {:induction false} CutIsLongest<K(!new), V(!new)>(sh: Shard<K, V>, budget: int)
    requires Whole(sh)
    ensures var t := CutTo(sh, budget);
            && Whole(t) && Fits(t, budget) && t.items <= sh.items && t.bytes <= sh.bytes && t.ll <= sh.ll
            && LongestFit(sh.ll, budget, |t.ll|)
    decreases |sh.ll|
  {
    hide Whole, Sum;
    BytesAre(sh);
    if sh.bytes <= budget || |sh.ll| <= 1 {
      assert sh.ll[..|sh.ll|] == sh.ll;
    } else {
      var n := |sh.ll| - 1;
      PrefixWhole(sh, sh.ll[n]);
      BytesAre(Shorter(sh));
      CutIsLongest(Shorter(sh), budget);
      var t := CutTo(sh, budget);
      forall m | |t.ll| < m <= |sh.ll|
        ensures Sum(sh.ll[..m]) > budget
      {
        if m <= n { assert sh.ll[..n][..m] == sh.ll[..m]; } else { assert sh.ll[..m] == sh.ll; }
      }
      assert sh.ll[..n][..|t.ll|] == sh.ll[..|t.ll|];
    }
  }

  /** evictLocked. */
  method Trim<K(==, !new), V(!new)>(sh: Shard<K, V>, budget: int) returns (t: Shard<K, V>, count: nat)
    ensures t == CutTo(sh, budget) && |t.ll| + count == |sh.ll|
  {
    t, count := sh, 0;
    while t.bytes > budget && |t.ll| > 1
      invariant CutTo(sh, budget) == CutTo(t, budget) && |t.ll| + count == |sh.ll|
      decreases |t.ll|
    {
      var back := t.ll[|t.ll| - 1];
      t := t.(ll := t.ll[..|t.ll| - 1]);
      t := t.(items := t.items - {back.key});
      t := t.(bytes := t.bytes - back.size);
      count := count + 1;
    }
  }

  lemma BytesAre<K(!new), V(!new)>(sh: Shard<K, V>)
    requires Whole(sh)
    ensures sh.bytes == Sum(sh.ll) && Distinct(sh.ll)
  {
  }

  /** A shard with the entry of its key in front. */
  function Front<K(==, !new), V(!new)>(sh: Shard<K, V>, e: Entry<K, V>): Shard<K, V> {
    var was := Find(sh.ll, e.key);
    Shard([e] + Without(sh.ll, e.key), sh.items + {e.key}, sh.bytes + e.size - if was.Some? then was.value.size else 0)
  }

  /** In a list of distinct keys, taking one out leaves what was before it and what was after it. */
  lemma {:induction false} WithoutIs<K(!new), V(!new)>(ll: seq<Entry<K, V>>, k: K, p: nat)
    requires Distinct(ll) && p < |ll| && ll[p].key == k
    ensures Without(ll, k) == ll[..p] + ll[p + 1..]
  {
    hide Without;
    var n := |ll| - 1;
    WithoutLast(ll, k);
    if p == n {
      WithoutAbsent(ll[..n], k);
      assert ll[..p] + ll[p + 1..] == ll[..n];
    } else {
      WithoutIs(ll[..n], k, p);
      assert ll[..n][..p] == ll[..p] && ll[..n][p + 1..] + [ll[n]] == ll[p + 1..];
    }
  }

  /** The entry at p is in front, and the others keep their order. */
  ghost predicate MovedUp<K, V>(was: seq<Entry<K, V>>, p: nat, now: seq<Entry<K, V>>) {
    p < |was| && now == [was[p]] + was[..p] + was[p + 1..]
  }

  lemma {:induction false} FrontMoves<K(!new), V(!new)>(sh: Shard<K, V>, e: Entry<K, V>) returns (p: nat)
    requires Whole(sh) && e in sh.ll
    ensures MovedUp(sh.ll, p, Front(sh, e).ll) && sh.ll[p] == e
  {
    p :| 0 <= p < |sh.ll| && sh.ll[p] == e;
    WithoutIs(sh.ll, e.key, p);
  }

  /** A shard after a Get: the entry found moves to the front, the others keep their order. */
  function Touched<K(==, !new), V(!new)>(sh: Shard<K, V>, k: K): Shard<K, V> {
    var e := Find(sh.ll, k);
    if e.Some? then Front(sh, e.value) else sh
  }

  function Dropped<K(==, !new), V(!new)>(sh: Shard<K, V>, k: K): Shard<K, V> {
    var was := Find(sh.ll, k);
    if was.None? then sh else Shard(Without(sh.ll, k), sh.items - {k}, sh.bytes - was.value.size)
  }

  lemma {:induction false} FrontWhole<K(!new), V(!new)>(sh: Shard<K, V>, e: Entry<K, V>)
    requires Whole(sh)
    ensures Whole(Front(sh, e))
  {
    hide Sum, Without, Find;
    var w := Without(sh.ll, e.key);
    var t := Front(sh, e);
    WithoutDistinct(sh.ll, e.key);
    SumWithout(sh.ll, e.key);
    SumConcat([e], w);
    SumOne(e);
    WithoutKeys(sh.ll, e.key);
    assert forall i | 0 < i < |t.ll| :: t.ll[i] == w[i - 1];
    forall k
      ensures k in t.items <==> HasKey(t.ll, k)
    {
      if k == e.key {
        assert t.ll[0].key == k;
      } else if k in sh.items {
        var i :| 0 <= i < |w| && w[i].key == k;
        assert t.ll[i + 1].key == k;
      }
    }
  }

  /** Taking a key out leaves exactly the other keys. */
  lemma {:induction false} WithoutKeys<K(!new), V(!new)>(ll: seq<Entry<K, V>>, k: K)
    ensures var w := Without(ll, k);
            forall x :: HasKey(w, x) <==> x != k && HasKey(ll, x)
  {
    var w := Without(ll, k);
    forall x
      ensures HasKey(w, x) <==> x != k && HasKey(ll, x)
    {
      if i :| 0 <= i < |w| && w[i].key == x {
        assert w[i] in ll;
        var j :| 0 <= j < |ll| && ll[j] == w[i];
      }
      if x != k {
        if j :| 0 <= j < |ll| && ll[j].key == x {
          assert ll[j] in w;
          var i :| 0 <= i < |w| && w[i] == ll[j];
        }
      }
    }
  }

  lemma {:induction false} DroppedWhole<K(!new), V(!new)>(sh: Shard<K, V>, k: K)
    requires Whole(sh)
    ensures Whole(Dropped(sh, k))
  {
    hide Sum, Without;
    WithoutDistinct(sh.ll, k);
    SumWithout(sh.ll, k);
    WithoutKeys(sh.ll, k);
  }

  function Total<K, V>(shards: seq<Shard<K, V>>): int {
    if shards == [] then 0 else
    var n := |shards| - 1;
    Total(shards[..n]) + shards[n].bytes
  }

  lemma {:induction false} TotalUpdate<K(!new), V(!new)>(shards: seq<Shard<K, V>>, i: nat, sh: Shard<K, V>)
    requires i < |shards|
    ensures Total(shards[i := sh]) == Total(shards) - shards[i].bytes + sh.bytes
  {
    var n := |shards| - 1;
    if i < n {
      TotalUpdate(shards[..n], i, sh);
      assert shards[i := sh][..n] == shards[..n][i := sh];
    } else {
      assert shards[i := sh][..n] == shards[..n];
    }
  }

  /** Each shard's part of the budget. */
  function PerShard(budget: int): (b: int)
    ensures b >= 1
  {
    if budget / SHARDS < 1 then 1 else budget / SHARDS
  }

  /** The parts make up the budget but for less than one byte a shard; each is at least one byte. */
  lemma PerShardIs(budget: int)
    ensures budget >= SHARDS ==> SHARDS * PerShard(budget) <= budget < SHARDS * PerShard(budget) + SHARDS
    ensures budget < SHARDS ==> PerShard(budget) == 1
  {
  }

  /** The bytes of the shards that are over by a single entry. */
  function Overshoot<K, V>(shards: seq<Shard<K, V>>, per: int): int {
    if shards == [] then 0 else
    var n := |shards| - 1;
    Overshoot(shards[..n], per) + if shards[n].bytes > per then shards[n].bytes else 0
  }

  /** Shards that fit their parts are together within the budget, but for those down to one entry. */
  lemma {:induction false} TotalWithin<K(!new), V(!new)>(shards: seq<Shard<K, V>>, per: nat)
    requires forall i | 0 <= i < |shards| :: Fits(shards[i], per)
    ensures Total(shards) <= |shards| * per + Overshoot(shards, per)
    ensures forall i | 0 <= i < |shards| && shards[i].bytes > per :: |shards[i].ll| <= 1
  {
    if shards != [] {
      var n := |shards| - 1;
      TotalWithin(shards[..n], per);
      assert |shards| * per == n * per + per;
    }
  }

  /** So much is within a budget: the budget itself, 64 bytes if it is less, and single entries that are over. */
  function Allowed<K, V>(budget: int, shards: seq<Shard<K, V>>): int {
    (if budget < 64 then 64 else budget) + Overshoot(shards, PerShard(budget))
  }

  lemma {:induction false} WithinAllowed<K(!new), V(!new)>(shards: seq<Shard<K, V>>, budget: int)
    requires |shards| == SHARDS && forall i | 0 <= i < SHARDS :: Fits(shards[i], PerShard(budget))
    ensures Total(shards) <= Allowed(budget, shards)
  {
    PerShardIs(budget);
    TotalWithin(shards, PerShard(budget));
  }

  /** The locked section of Put: the entry in front, and the shard cut to the budget that was read. */
  function Filled<K(==, !new), V(!new)>(sh: Shard<K, V>, e: Entry<K, V>, per: int): Shard<K, V> {
    CutTo(Front(sh, e), per)
  }

  lemma {:induction false} FilledHas<K(!new), V(!new)>(sh: Shard<K, V>, e: Entry<K, V>, per: int)
    requires Whole(sh)
    ensures var t := Filled(sh, e, per);
            Whole(t) && Fits(t, per) && t.items <= sh.items + {e.key} && t.ll != [] && t.ll[0] == e
  {
    hide Whole, CutTo;
    FrontWhole(sh, e);
    CutIsLongest(Front(sh, e), per);
  }

  class LruCache<K(==, !new), V(!new)> {
    const shardOf: K -> nat
    const sizeOf: (K, V) -> nat
    var budget: int
    var bytes: int
    var evictions: nat
    var shards: seq<Shard<K, V>>

    function Home(k: K): (i: nat)
      ensures i < SHARDS
    {
      shardOf(k) % SHARDS
    }

    function ShardBudget(): (b: int)
      reads this
      ensures b >= 1
    {
      PerShard(budget)
    }

    /** Every shard is whole and holds only its own keys, and the global counter is their sum. */
    ghost predicate Sound()
      reads this
    {
      && |shards| == SHARDS
      && (forall i | 0 <= i < SHARDS :: Whole(shards[i]))
      && (forall i, k | 0 <= i < SHARDS && k in shards[i].items :: Home(k) == i)
      && bytes == Total(shards)
    }

    /** And every shard is within its part of the budget, or down to one entry. */
    ghost predicate Valid()
      reads this
    {
      Sound() && forall i | 0 <= i < SHARDS :: Fits(shards[i], ShardBudget())
    }

    /** What a Get of k finds. */
    function Lookup(k: K): (r: Option<V>)
      requires |shards| == SHARDS
      reads this
    {
      var e := Find(shards[Home(k)].ll, k);
      if e.Some? then Some(e.value.val) else None
    }

    constructor (budget: int, shardOf: K -> nat, sizeOf: (K, V) -> nat)
      ensures Valid() && this.budget == budget && this.shardOf == shardOf && this.sizeOf == sizeOf
      ensures forall k :: Lookup(k) == None
    {
      this.budget, this.shardOf, this.sizeOf := budget, shardOf, sizeOf;
      bytes, evictions := 0, 0;
      shards := seq(SHARDS, i => Shard([], {}, 0));
      new;
      TotalNothing(shards);
    }

    /** One shard changes: the counters follow. */
    method Store(i: nat, sh: Shard<K, V>)
      requires i < SHARDS && Sound() && Whole(sh) && forall k | k in sh.items :: Home(k) == i
      modifies this`shards, this`bytes
      ensures Sound() && shards == old(shards)[i := sh]
    {
      TotalUpdate(shards, i, sh);
      bytes := bytes + (sh.bytes - shards[i].bytes);
      shards := shards[i := sh];
    }

    method EvictLocked(i: nat, per: int)
      requires i < SHARDS && Sound()
      modifies this`shards, this`bytes, this`evictions
      ensures Sound() && Fits(shards[i], per) && shards == old(shards)[i := CutTo(old(shards)[i], per)]
      ensures evictions == old(evictions) + |old(shards)[i].ll| - |shards[i].ll|
    {
      hide Whole, Sum, CutTo;
      CutIsLongest(shards[i], per);
      var t, count := Trim(shards[i], per);
      Store(i, t);
      evictions := evictions + count;
    }

    /** Get, which also makes k the latest used. */
    method Get(k: K) returns (r: Option<V>)
      requires Sound()
      modifies this`shards, this`bytes
      ensures Sound() && r == old(Lookup(k))
      ensures forall x :: Lookup(x) == old(Lookup(x))
      ensures shards == old(shards)[Home(k) := Touched(old(shards)[Home(k)], k)]
      ensures r.None? ==> shards == old(shards)
      ensures r.Some? ==> exists p | 0 <= p < |old(shards)[Home(k)].ll| ::
                old(shards)[Home(k)].ll[p].key == k && MovedUp(old(shards)[Home(k)].ll, p, shards[Home(k)].ll)
    {
      hide Whole, Sum, Without;
      var i := Home(k);
      var sh := shards[i];
      var e := Find(sh.ll, k);
      if e.None? { return None; }
      FrontWhole(sh, e.value);
      FrontKeeps(sh, e.value);
      BytesAre(sh);
      Store(i, Front(sh, e.value));
      ghost var p := FrontMoves(sh, e.value);
      forall x
        ensures Lookup(x) == old(Lookup(x))
      {
        FrontFinds(sh, e.value, x);
      }
      r := Some(e.value.val);
    }

    /** The locked section of Put, with the shard budget as it was read before the lock. */
    method PutLocked(k: K, v: V, per: int)
      requires Sound()
      modifies this`shards, this`bytes, this`evictions
      ensures Sound() && Lookup(k) == Some(v) && Fits(shards[Home(k)], per)
      ensures shards == old(shards)[Home(k) := Filled(old(shards)[Home(k)], Entry(k, v, sizeOf(k, v)), per)]
    {
      hide Whole, Sum, Without, CutTo;
      var e := Entry(k, v, sizeOf(k, v));
      var i := Home(k);
      FilledHas(shards[i], e, per);
      FrontWhole(shards[i], e);
      Store(i, Front(shards[i], e));
      EvictLocked(i, per);
    }

    /** Put, when nothing comes between the read of the budget and the lock. */
    method Put(k: K, v: V)
      requires Sound()
      modifies this`shards, this`bytes, this`evictions
      ensures Sound() && Lookup(k) == Some(v) && (old(Valid()) ==> Valid() && bytes <= Allowed(budget, shards))
      ensures shards == old(shards)[Home(k) := Filled(old(shards)[Home(k)], Entry(k, v, sizeOf(k, v)), ShardBudget())]
    {
      hide Whole, Filled;
      var per := ShardBudget();
      PutLocked(k, v, per);
      if old(Valid()) { WithinAllowed(shards, budget); }
    }

    method Forget(k: K)
      requires Sound()
      modifies this`shards, this`bytes
      ensures Sound() && forall x :: Lookup(x) == if x == k then None else old(Lookup(x))
      ensures shards == old(shards)[Home(k) := Dropped(old(shards)[Home(k)], k)]
    {
      hide Whole, Sum, Without;
      var i := Home(k);
      var sh := shards[i];
      if Find(sh.ll, k).Some? {
        BytesAre(sh);
        DroppedWhole(sh, k);
        Store(i, Dropped(sh, k));
        forall x
          ensures Lookup(x) == if x == k then None else old(Lookup(x))
        {
          WithoutFinds(sh.ll, k, x);
        }
      }
    }

    /** The first step of SetBudget. */
    method StoreBudget(total: int)
      requires Sound()
      modifies this`budget
      ensures Sound() && budget == if total < 0 then 0 else total
    {
      budget := if total < 0 then 0 else total;
    }

    /** SetBudget, when nothing comes between: every shard is cut to its part of the new budget. */
    method SetBudget(total: int)
      requires Sound()
      modifies this`budget, this`shards, this`bytes, this`evictions
      ensures Valid() && budget == if total < 0 then 0 else total
      ensures bytes <= Allowed(budget, shards)
      ensures forall i | 0 <= i < SHARDS :: shards[i] == CutTo(old(shards)[i], ShardBudget())
    {
      hide Whole, Sum, CutTo;
      StoreBudget(total);
      var per := ShardBudget();
      for i := 0 to SHARDS
        invariant Sound() && per == ShardBudget() && budget == if total < 0 then 0 else total
        invariant forall j | 0 <= j < i :: Fits(shards[j], per) && shards[j] == CutTo(old(shards)[j], per)
        invariant forall j | i <= j < SHARDS :: shards[j] == old(shards)[j]
      {
        EvictLocked(i, per);
      }
      WithinAllowed(shards, budget);
    }

    /** One locked step of Clear. */
    method ClearShard(i: nat)
      requires Sound() && i < SHARDS
      modifies this`shards, this`bytes
      ensures Sound() && shards == old(shards)[i := Shard([], {}, 0)]
    {
      hide Sum;
      var none: Shard<K, V> := Shard([], {}, 0);
      NothingWhole(none);
      Store(i, none);
    }

    /** Clear, when nothing comes between. */
    method Clear()
      requires Sound()
      modifies this`shards, this`bytes
      ensures Valid() && bytes == 0 && forall k :: Lookup(k) == None
    {
      hide Sum, Whole;
      for i := 0 to SHARDS
        invariant Sound() && forall j | 0 <= j < i :: shards[j] == Shard([], {}, 0)
      {
        ClearShard(i);
      }
      TotalNothing(shards);
    }
  }

  lemma NothingWhole<K(!new), V(!new)>(sh: Shard<K, V>)
    requires sh == Shard([], {}, 0)
    ensures Whole(sh)
  {
  }

  lemma {:induction false} TotalNothing<K(!new), V(!new)>(shards: seq<Shard<K, V>>)
    requires forall i | 0 <= i < |shards| :: shards[i].bytes == 0
    ensures Total(shards) == 0
  {
    if shards != [] { TotalNothing(shards[..|shards| - 1]); }
  }

  /** Moving an entry to the front changes no count. */
  lemma {:induction false} FrontKeeps<K(!new), V(!new)>(sh: Shard<K, V>, e: Entry<K, V>)
    requires Whole(sh) && Find(sh.ll, e.key) == Some(e)
    ensures Front(sh, e).bytes == sh.bytes && Front(sh, e).items == sh.items && |Front(sh, e).ll| == |sh.ll|
  {
    WithoutLength(sh.ll, e.key);
    var i :| 0 <= i < |sh.ll| && sh.ll[i] == e;
    assert HasKey(sh.ll, e.key);
  }

  lemma {:induction false} WithoutLength<K(!new), V(!new)>(ll: seq<Entry<K, V>>, k: K)
    requires Distinct(ll)
    ensures |Without(ll, k)| == |ll| - if Find(ll, k).Some? then 1 else 0
  {
    if ll != [] {
      WithoutLength(ll[..|ll| - 1], k);
      FindLast(ll, k);
    }
  }

  lemma {:induction false} FrontFinds<K(!new), V(!new)>(sh: Shard<K, V>, e: Entry<K, V>, x: K)
    requires Whole(sh)
    ensures Find(Front(sh, e).ll, x) == if x == e.key then Some(e) else Find(sh.ll, x)
  {
    hide Sum, Without;
    WithoutFinds(sh.ll, e.key, x);
    assert Front(sh, e).ll[1..] == Without(sh.ll, e.key);
  }
}
