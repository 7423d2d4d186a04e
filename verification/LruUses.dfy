/**
 The order of use, over every interleaving: in every run each shard's list is in the order of the
 last use of its keys, so what a cut takes was used before all that it leaves.
 */
module LruUses {
  import opened LruCache
  import opened LruRuns

  /** The step uses the key: it gets it, or it is the locked section of a Put of it. */
  ghost predicate Uses<K(!new), V(!new)>(s: State<K, V>, step: Step<K, V>, k: K) {
    match step
    case Get(x) => x == k
    case LockPut(id) => id in s.calls && s.calls[id].Putting? && s.calls[id].e.key == k
    case _ => false
  }

  /** The last of the first n steps that used the key; -1 if none did. */
  ghost function LastUse<K(!new), V(!new)>(r: seq<State<K, V>>, steps: seq<Step<K, V>>, n: nat, k: K): (t: int)
    requires n <= |steps| <= |r|
    ensures -1 <= t < n
    ensures t >= 0 ==> Uses(r[t], steps[t], k)
    ensures forall x | t < x < n :: !Uses(r[x], steps[x], k)
  {
    if n == 0 then -1 else if Uses(r[n - 1], steps[n - 1], k) then n - 1 else LastUse(r, steps, n - 1, k)
  }

  /** The list is in strictly descending order of the times t, and every key has one. */
  ghost predicate Descends<K(!new), V(!new)>(ll: seq<Entry<K, V>>, t: K -> int) {
    && (forall a | 0 <= a < |ll| :: t(ll[a].key) >= 0)
    && (forall a, b | 0 <= a < b < |ll| :: t(ll[a].key) > t(ll[b].key))
  }

  lemma DescendsSnoc<K(!new), V(!new)>(ll: seq<Entry<K, V>>, e: Entry<K, V>, t: K -> int)
    requires Descends(ll, t) && t(e.key) >= 0 && forall x | x in ll :: t(x.key) > t(e.key)
    ensures Descends(ll + [e], t)
  {
  }

  lemma DescendsLast<K(!new), V(!new)>(ll: seq<Entry<K, V>>, t: K -> int)
    requires ll != [] && Descends(ll, t)
    ensures var (front, e) := (ll[..|ll| - 1], ll[|ll| - 1]);
            Descends(front, t) && t(e.key) >= 0 && forall x | x in front :: t(x.key) > t(e.key)
  {
  }

  lemma {:induction false} DescendsWithout<K(!new), V(!new)>(ll: seq<Entry<K, V>>, k: K, t: K -> int)
    requires Descends(ll, t)
    ensures Descends(Without(ll, k), t)
  {
    hide Without, Descends;
    if ll == [] {
      WithoutNone<K, V>(k);
      NoneDescend<K, V>(t);
    } else {
      var n := |ll| - 1;
      DescendsLast(ll, t);
      DescendsWithout(ll[..n], k, t);
      WithoutLast(ll, k);
      if ll[n].key != k { DescendsSnoc(Without(ll[..n], k), ll[n], t); }
    }
  }

  lemma DescendsPrefix<K(!new), V(!new)>(ll: seq<Entry<K, V>>, some: seq<Entry<K, V>>, t: K -> int)
    requires Descends(ll, t) && some <= ll
    ensures Descends(some, t)
  {
    assert forall a | 0 <= a < |some| :: some[a] == ll[a];
  }

  /** The same order by other times that agree on the keys in the list. */
  lemma DescendsAgain<K(!new), V(!new)>(ll: seq<Entry<K, V>>, t: K -> int, t': K -> int)
    requires Descends(ll, t) && forall a | 0 <= a < |ll| :: t'(ll[a].key) == t(ll[a].key)
    ensures Descends(ll, t')
  {
  }

  /** A key used now, in front of a list without it. */
  lemma {:induction false} DescendsFront<K(!new), V(!new)>(sh: Shard<K, V>, e: Entry<K, V>, t: K -> int, t': K -> int,
                                                           n: nat)
    requires Descends(sh.ll, t) && t'(e.key) == n && forall x | x != e.key :: t'(x) == t(x) < n
    ensures Descends(Front(sh, e).ll, t')
  {
    hide Without, Find;
    var w := Without(sh.ll, e.key);
    DescendsWithout(sh.ll, e.key, t);
    forall a | 0 <= a < |w|
      ensures t'(w[a].key) == t(w[a].key) < n
    {
      assert w[a] in w;
    }
    DescendsAgain(w, t, t');
    assert forall a | 0 < a <= |w| :: Front(sh, e).ll[a] == w[a - 1];
  }

  lemma NoneDescend<K(!new), V(!new)>(t: K -> int)
    ensures Descends<K, V>([], t)
  {
  }

  /** A key is in no list but that of its own shard. */
  lemma NotHere<K(!new), V(!new)>(home: K -> nat, s: State<K, V>, i: nat, k: K)
    requires Sound(home, s) && i < SHARDS && Home(home, k) != i
    ensures forall a | 0 <= a < |s.shards[i].ll| :: s.shards[i].ll[a].key != k
  {
    assert Whole(s.shards[i]) && k !in s.shards[i].items;
    assert !HasKey(s.shards[i].ll, k);
  }

  /** Times after a use of k at n. */
  ghost predicate UsedAt<K(!new)>(t: K -> int, t': K -> int, k: K, n: nat) {
    forall x :: t(x) < n && t'(x) == if x == k then n else t(x)
  }

  lemma {:induction false} GetOrders<K(!new), V(!new)>(sh: Shard<K, V>, k: K, t: K -> int, t': K -> int, n: nat)
    requires Descends(sh.ll, t) && UsedAt(t, t', k, n)
    ensures Descends(Touched(sh, k).ll, t')
  {
    hide Front, Descends;
    var e := Find(sh.ll, k);
    if e.Some? { DescendsFront(sh, e.value, t, t', n); } else { DescendsAgain(sh.ll, t, t'); }
  }

  lemma {:induction false} PutOrders<K(!new), V(!new)>(sh: Shard<K, V>, e: Entry<K, V>, per: int, t: K -> int, t': K -> int,
                                                       n: nat)
    requires Whole(sh) && Descends(sh.ll, t) && UsedAt(t, t', e.key, n)
    ensures Descends(Filled(sh, e, per).ll, t')
  {
    hide Front, CutTo, Whole, Descends;
    DescendsFront(sh, e, t, t', n);
    FrontWhole(sh, e);
    CutIsLongest(Front(sh, e), per);
    DescendsPrefix(Front(sh, e).ll, Filled(sh, e, per).ll, t');
  }

  lemma {:induction false} DropOrders<K(!new), V(!new)>(sh: Shard<K, V>, k: K, t: K -> int)
    requires Descends(sh.ll, t)
    ensures Descends(Dropped(sh, k).ll, t)
  {
    hide Descends, Without;
    DescendsWithout(sh.ll, k, t);
  }

  lemma {:induction false} CutOrders<K(!new), V(!new)>(sh: Shard<K, V>, per: int, t: K -> int)
    requires Whole(sh) && Descends(sh.ll, t)
    ensures Descends(CutTo(sh, per).ll, t)
  {
    hide Descends, CutTo, Whole;
    CutIsLongest(sh, per);
    DescendsPrefix(sh.ll, CutTo(sh, per).ll, t);
  }

  /** Every step keeps every shard in order. */
  lemma {:induction false} StepOrders<K(!new), V(!new)>(home: K -> nat, s: State<K, V>, step: Step<K, V>, i: nat,
                                                        t: K -> int, t': K -> int, n: nat)
    requires Sound(home, s) && Enabled(s, step) && i < SHARDS && Descends(s.shards[i].ll, t)
    requires forall k :: t(k) < n && t'(k) == if Uses(s, step, k) then n else t(k)
    ensures |Apply(home, s, step).shards| == SHARDS && Descends(Apply(home, s, step).shards[i].ll, t')
  {
    hide Touched, Filled, Dropped, CutTo, Descends, Total;
    var sh := s.shards[i];
    match step {
      case Get(k) =>
        if i == Home(home, k) { GetOrders(sh, k, t, t', n); } else { NotHere(home, s, i, k); DescendsAgain(sh.ll, t, t'); }
      case LockPut(id) =>
        var Putting(e, per, _) := s.calls[id];
        if i == Home(home, e.key) {
          PutOrders(sh, e, per, t, t', n);
        } else {
          NotHere(home, s, i, e.key);
          DescendsAgain(sh.ll, t, t');
        }
      case Forget(k) =>
        DescendsAgain(sh.ll, t, t');
        DropOrders(sh, k, t');
      case TrimNext(id) =>
        DescendsAgain(sh.ll, t, t');
        CutOrders(sh, s.calls[id].per, t');
      case ClearNext(id) =>
        DescendsAgain(sh.ll, t, t');
        NoneDescend<K, V>(t');
      case _ => DescendsAgain(sh.ll, t, t');
    }
  }

  lemma LastUseNext<K(!new), V(!new)>(r: seq<State<K, V>>, steps: seq<Step<K, V>>, m: nat)
    requires m < |steps| <= |r|
    ensures forall k :: LastUse(r, steps, m + 1, k) == if Uses(r[m], steps[m], k) then m else LastUse(r, steps, m, k)
  {
  }

  /**
   In every run, however the calls interleave, every shard's list is in strictly descending order
   of the last Get or Put of its keys.
   */
  lemma {:induction false} ListedByUse<K(!new), V(!new)>(home: K -> nat, budget: int, r: seq<State<K, V>>,
                                                         steps: seq<Step<K, V>>, n: nat, i: nat)
    requires Run(home, budget, r, steps) && n < |r| && i < SHARDS
    ensures |r[n].shards| == SHARDS
    ensures var ll := r[n].shards[i].ll;
            && (forall a | 0 <= a < |ll| :: LastUse(r, steps, n, ll[a].key) >= 0)
            && forall a, b | 0 <= a < b < |ll| :: LastUse(r, steps, n, ll[a].key) > LastUse(r, steps, n, ll[b].key)
  {
    hide Apply, Sound, Enabled, LastUse;
    RunKeeps(home, budget, r, steps, n);
    SoundForms(home, r[n]);
    if n > 0 {
      var m := n - 1;
      ListedByUse(home, budget, r, steps, m, i);
      RunKeeps(home, budget, r, steps, m);
      assert Enabled(r[m], steps[m]) && r[n] == Apply(home, r[m], steps[m]);
      var t: K -> int, t': K -> int := k => LastUse(r, steps, m, k), k => LastUse(r, steps, n, k);
      LastUseNext(r, steps, m);
      StepOrders(home, r[m], steps[m], i, t, t', m);
    }
  }

  /** A list with all that was in another and more, of which a cut left the front. */
  lemma PrefixIsLater<K(!new), V(!new)>(ll: seq<Entry<K, V>>, some: seq<Entry<K, V>>, t: K -> int, x: K, y: K)
    requires Descends(ll, t) && some <= ll && HasKey(ll, x) && !HasKey(some, x) && HasKey(some, y)
    ensures t(x) < t(y)
  {
    assert forall j | 0 <= j < |some| :: some[j] == ll[j];
    var a :| 0 <= a < |ll| && ll[a].key == x;
    var b :| 0 <= b < |some| && some[b].key == y;
  }

  lemma {:induction false} PutCutsOldest<K(!new), V(!new)>(sh: Shard<K, V>, e: Entry<K, V>, per: int, t: K -> int,
                                                           t': K -> int, n: nat, x: K, y: K)
    requires Whole(sh) && Descends(sh.ll, t) && UsedAt(t, t', e.key, n)
    requires x in sh.items && x !in Filled(sh, e, per).items && y in Filled(sh, e, per).items
    ensures t'(x) < t'(y)
  {
    hide Front, CutTo, Descends, UsedAt, Without, Find;
    var all := Front(sh, e);
    DescendsFront(sh, e, t, t', n) by { assert UsedAt(t, t', e.key, n); UsedMeans(t, t', e.key, n); }
    FrontWhole(sh, e);
    FrontItems(sh, e);
    CutIsLongest(all, per);
    PrefixIsLater(all.ll, Filled(sh, e, per).ll, t', x, y);
  }

  lemma UsedMeans<K(!new)>(t: K -> int, t': K -> int, k: K, n: nat)
    requires UsedAt(t, t', k, n)
    ensures t'(k) == n && forall x | x != k :: t'(x) == t(x) < n
  {
  }

  lemma FrontItems<K(!new), V(!new)>(sh: Shard<K, V>, e: Entry<K, V>)
    ensures sh.items <= Front(sh, e).items
  {
    hide Without, Find;
  }

  lemma {:induction false} TrimCutsOldest<K(!new), V(!new)>(sh: Shard<K, V>, per: int, t: K -> int, x: K, y: K)
    requires Whole(sh) && Descends(sh.ll, t) && x in sh.items && x !in CutTo(sh, per).items && y in CutTo(sh, per).items
    ensures t(x) < t(y)
  {
    hide CutTo, Descends;
    CutIsLongest(sh, per);
    PrefixIsLater(sh.ll, CutTo(sh, per).ll, t, x, y);
  }

  /** What a Put or a SetBudget evicts was last used before all that it leaves in the shard. */
  lemma {:induction false} EvictsOldest<K(!new), V(!new)>(home: K -> nat, budget: int, r: seq<State<K, V>>,
                                                          steps: seq<Step<K, V>>, n: nat, i: nat, x: K, y: K)
    requires Run(home, budget, r, steps) && n < |steps| && i < SHARDS == |r[n].shards| == |r[n + 1].shards|
    requires steps[n].LockPut? || steps[n].TrimNext?
    requires x in r[n].shards[i].items && x !in r[n + 1].shards[i].items && y in r[n + 1].shards[i].items
    ensures LastUse(r, steps, n + 1, x) < LastUse(r, steps, n + 1, y)
  {
    hide LastUse, Filled, CutTo, Whole, Total;
    var s, step := r[n], steps[n];
    var t: K -> int, t': K -> int := k => LastUse(r, steps, n, k), k => LastUse(r, steps, n + 1, k);
    RunKeeps(home, budget, r, steps, n);
    ListedByUse(home, budget, r, steps, n, i);
    LastUseNext(r, steps, n);
    assert Enabled(s, step) && r[n + 1] == Apply(home, s, step);
    var sh := s.shards[i];
    if step.LockPut? {
      var Putting(e, per, _) := s.calls[step.id];
      PutCutsOldest(sh, e, per, t, t', n, x, y);
    } else {
      assert Descends(sh.ll, t');
      TrimCutsOldest(sh, s.calls[step.id].per, t', x, y);
    }
  }

  // Which budgets are read.

  /** The budget after n steps: what the last SetBudget stored, or that of the start. */
  ghost function Stored<K, V>(budget: int, steps: seq<Step<K, V>>, n: nat): int
    requires n <= |steps|
  {
    if n == 0 then budget
    else if steps[n - 1].StoreBudget? then (if steps[n - 1].total < 0 then 0 else steps[n - 1].total)
    else Stored(budget, steps, n - 1)
  }

  lemma {:induction false} BudgetIsStored<K(!new), V(!new)>(home: K -> nat, budget: int, r: seq<State<K, V>>,
                                                            steps: seq<Step<K, V>>, n: nat)
    requires Run(home, budget, r, steps) && n < |r|
    ensures r[n].budget == Stored(budget, steps, n)
  {
    hide Touched, Filled, Dropped, CutTo;
    if n > 0 { BudgetIsStored(home, budget, r, steps, n - 1); }
  }

  /** per is a shard's part of the budget as it was when step x began. */
  ghost predicate ReadAt<K(!new), V(!new)>(budget: int, steps: seq<Step<K, V>>, x: nat, per: int)
    requires x < |steps|
  {
    var b := Stored(budget, steps, x);
    (steps[x].ReadBudget? || steps[x].ReadPer?) && if b < 64 then per == 1 else 64 * per <= b < 64 * (per + 1)
  }

  /** Every budget that a call holds, or that a shard was cut to, was read in a step before. */
  ghost predicate HonestReads<K(!new), V(!new)>(budget: int, steps: seq<Step<K, V>>, n: nat, s: State<K, V>)
    requires n <= |steps|
  {
    && (forall id | id in s.calls && s.calls[id].Putting? ::
          s.calls[id].read < n && ReadAt(budget, steps, s.calls[id].read, s.calls[id].per))
    && (forall id | id in s.calls && s.calls[id].Trimming? ::
          exists x | 0 <= x < n :: ReadAt(budget, steps, x, s.calls[id].per))
    && (forall i, a | 0 <= i < |s.logs| && 0 <= a < |s.logs[i]| :: HonestRecord(budget, steps, n, s.logs[i][a]))
  }

  ghost predicate HonestRecord<K(!new), V(!new)>(budget: int, steps: seq<Step<K, V>>, n: nat, rec: Record)
    requires n <= |steps|
  {
    match rec
    case ByPut(per, read) => read < n && ReadAt(budget, steps, read, per)
    case BySet(per) => exists x | 0 <= x < n :: ReadAt(budget, steps, x, per)
  }

  lemma {:induction false} ReadIsHonest<K(!new), V(!new)>(home: K -> nat, budget: int, r: seq<State<K, V>>,
                                                          steps: seq<Step<K, V>>, n: nat)
    requires Run(home, budget, r, steps) && n < |steps| && (steps[n].ReadBudget? || steps[n].ReadPer?)
    ensures ReadAt(budget, steps, n, PerShard(r[n].budget))
  {
    BudgetIsStored(home, budget, r, steps, n);
    PerShardIs(r[n].budget);
  }

  lemma {:induction false} ClockIs<K(!new), V(!new)>(home: K -> nat, budget: int, r: seq<State<K, V>>,
                                                     steps: seq<Step<K, V>>, n: nat)
    requires Run(home, budget, r, steps) && n < |r|
    ensures r[n].clock == n
  {
    hide Touched, Filled, Dropped, CutTo;
    if n > 0 { ClockIs(home, budget, r, steps, n - 1); }
  }

  lemma StartIsHonest<K(!new), V(!new)>(budget: int, steps: seq<Step<K, V>>, s: State<K, V>)
    requires s == Start(budget)
    ensures HonestReads(budget, steps, 0, s)
  {
  }

  lemma HonestMore<K(!new), V(!new)>(budget: int, steps: seq<Step<K, V>>, n: nat, s: State<K, V>)
    requires n < |steps| && HonestReads(budget, steps, n, s)
    ensures HonestReads(budget, steps, n + 1, s)
  {
    hide ReadAt;
    forall i, a | 0 <= i < |s.logs| && 0 <= a < |s.logs[i]|
      ensures HonestRecord(budget, steps, n + 1, s.logs[i][a])
    {
      assert HonestRecord(budget, steps, n, s.logs[i][a]);
    }
  }

  lemma {:induction false} StepIsHonest<K(!new), V(!new)>(home: K -> nat, budget: int, steps: seq<Step<K, V>>, n: nat,
                                                          s: State<K, V>)
    requires n < |steps| && Formed(s) && Enabled(s, steps[n]) && s.clock == n && HonestReads(budget, steps, n + 1, s)
    requires steps[n].ReadBudget? || steps[n].ReadPer? ==> ReadAt(budget, steps, n, PerShard(s.budget))
    ensures HonestReads(budget, steps, n + 1, Apply(home, s, steps[n]))
  {
    hide Touched, Filled, Dropped, CutTo, ReadAt, PerShard;
    var t := Apply(home, s, steps[n]);
    forall i, a | 0 <= i < |t.logs| && 0 <= a < |t.logs[i]|
      ensures HonestRecord(budget, steps, n + 1, t.logs[i][a])
    {
      if a < |s.logs[i]| && t.logs[i][a] == s.logs[i][a] { assert HonestRecord(budget, steps, n + 1, s.logs[i][a]); }
    }
  }

  /**
   In every run the budget that a Put or a SetBudget cuts a shard to is the shard's part of the
   budget that was stored last when it read it.
   */
  lemma {:induction false} CutsAreRead<K(!new), V(!new)>(home: K -> nat, budget: int, r: seq<State<K, V>>,
                                                         steps: seq<Step<K, V>>, n: nat)
    requires Run(home, budget, r, steps) && n < |r|
    ensures HonestReads(budget, steps, n, r[n])
  {
    hide Apply, Enabled, HonestReads, ReadAt, PerShard;
    if n == 0 {
      StartIsHonest(budget, steps, r[0]);
    } else {
      var m := n - 1;
      CutsAreRead(home, budget, r, steps, m);
      HonestMore(budget, steps, m, r[m]);
      ClockIs(home, budget, r, steps, m);
      if steps[m].ReadBudget? || steps[m].ReadPer? { ReadIsHonest(home, budget, r, steps, m); }
      assert Enabled(r[m], steps[m]) && r[n] == Apply(home, r[m], steps[m]);
      StepIsHonest(home, budget, steps, m, r[m]);
    }
  }
}
