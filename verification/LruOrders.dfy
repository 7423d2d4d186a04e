/**
 Which orders of reads, stores and locked sections keep every shard of the cache within the current
 budget: a Put that straddles a SetBudget need not, and exactly when not.
 */
module LruOrders {
  import opened LruCache
  import opened LruRuns

  /** The same step of the same call on the same shard, with any key, value and size. */
  predicate Alike<K(!new), V>(home: K -> nat, a: Step<K, V>, b: Step<K, V>) {
    match a
    case Get(k) => b.Get? && Home(home, b.k) == Home(home, k)
    case Forget(k) => b.Forget? && Home(home, b.k) == Home(home, k)
    case ReadBudget(id, e) => b.ReadBudget? && b.id == id && Home(home, b.e.key) == Home(home, e.key)
    case LockPut(id) => b == LockPut(id)
    case StoreBudget(id, total) => b == StoreBudget(id, total)
    case ReadPer(id) => b == ReadPer(id)
    case TrimNext(id) => b == TrimNext(id)
    case StartClear(id) => b == StartClear(id)
    case ClearNext(id) => b == ClearNext(id)
  }

  ghost predicate SameOrder<K(!new), V(!new)>(home: K -> nat, a: seq<Step<K, V>>, b: seq<Step<K, V>>) {
    |a| == |b| && forall n | 0 <= n < |a| :: Alike(home, a[n], b[n])
  }

  predicate CallAlike<K(!new), V>(home: K -> nat, a: Call<K, V>, b: Call<K, V>) {
    match a
    case Putting(e, per, read) => b.Putting? && b.per == per && b.read == read && Home(home, b.e.key) == Home(home, e.key)
    case Stored => b == Stored
    case Trimming(per, next) => b == Trimming(per, next)
    case Clearing(next) => b == Clearing(next)
  }

  /** Two states that differ only in what is stored. */
  ghost predicate SameControl<K(!new), V(!new)>(home: K -> nat, s: State<K, V>, t: State<K, V>) {
    && s.budget == t.budget && s.logs == t.logs && s.spent == t.spent && s.clock == t.clock
    && s.calls.Keys == t.calls.Keys && forall id | id in s.calls :: CallAlike(home, s.calls[id], t.calls[id])
  }

  lemma {:induction false} StepControls<K(!new), V(!new)>(home: K -> nat, s: State<K, V>, t: State<K, V>,
                                                          a: Step<K, V>, b: Step<K, V>)
    requires Formed(s) && Formed(t) && SameControl(home, s, t) && Alike(home, a, b) && Enabled(s, a)
    ensures Enabled(t, b) && SameControl(home, Apply(home, s, a), Apply(home, t, b))
  {
    hide Filled, CutTo, Touched, Dropped;
  }

  lemma {:induction false} OrderControls<K(!new), V(!new)>(home: K -> nat, budget: int, r: seq<State<K, V>>,
                                                           steps: seq<Step<K, V>>,
                                                           r': seq<State<K, V>>, steps': seq<Step<K, V>>, n: nat)
    requires Run(home, budget, r, steps) && Run(home, budget, r', steps') && n < |r| && n < |r'|
    requires forall m | 0 <= m < n :: Alike(home, steps[m], steps'[m])
    ensures SameControl(home, r[n], r'[n])
  {
    hide Apply, Enabled, Formed, Alike;
    if n > 0 {
      OrderControls(home, budget, r, steps, r', steps', n - 1);
      StepControls(home, r[n - 1], r'[n - 1], steps[n - 1], steps'[n - 1]);
    }
  }

  predicate HasRead(log: seq<Record>, x: nat) {
    exists p | 0 <= p < |log| :: log[p].ByPut? && log[p].read == x
  }

  /** What one step does to one log. */
  lemma StepLogs<K(!new), V(!new)>(home: K -> nat, s: State<K, V>, step: Step<K, V>, i: nat)
    requires Formed(s) && Enabled(s, step) && i < SHARDS
    ensures var was, now := s.logs[i], Apply(home, s, step).logs[i];
            || now == was
            || now == []
            || (exists per :: now == was + [BySet(per)])
            || (step.LockPut? && now == was + [ByPut(s.calls[step.id].per, s.calls[step.id].read)])
  {
    hide Filled, CutTo, Touched, Dropped;
  }

  /** A log that still has the read of a Put goes on from where it was. */
  lemma {:induction false} LogKeeps<K(!new), V(!new)>(home: K -> nat, budget: int, r: seq<State<K, V>>,
                                                      steps: seq<Step<K, V>>,
                                                      i: nat, m: nat, n: nat, x: nat)
    requires Run(home, budget, r, steps) && m <= n < |r| && i < SHARDS && |r[m].logs| == |r[n].logs| == SHARDS
    requires HasRead(r[m].logs[i], x) && HasRead(r[n].logs[i], x)
    ensures r[m].logs[i] <= r[n].logs[i]
    decreases n
  {
    hide Apply;
    if m < n {
      var s, step := r[n - 1], steps[n - 1];
      StepLogs(home, s, step, i);
      SpentGrows(home, budget, r, steps, i, m, n - 1, x);
      if HasRead(s.logs[i], x) { LogKeeps(home, budget, r, steps, i, m, n - 1, x); }
    }
  }

  lemma {:induction false} SpentGrows<K(!new), V(!new)>(home: K -> nat, budget: int, r: seq<State<K, V>>,
                                                        steps: seq<Step<K, V>>,
                                                        i: nat, m: nat, n: nat, x: nat)
    requires Run(home, budget, r, steps) && m <= n < |r| && i < SHARDS && |r[m].logs| == SHARDS && HasRead(r[m].logs[i], x)
    ensures x in r[n].spent && Formed(r[n])
    decreases n
  {
    hide Apply, Sound, LogHolds;
    RunKeeps(home, budget, r, steps, n);
    SoundForms(home, r[n]);
    if m == n {
      assert LogReads(r[m].logs[i], r[m].spent);
    } else {
      SpentGrows(home, budget, r, steps, i, m, n - 1, x);
      RunKeeps(home, budget, r, steps, n - 1);
      ReadsKeep(home, r[n - 1], steps[n - 1]);
    }
  }

  // Any order whose log is over a budget leaves some contents over it.

  /** Keys that are their own hash. */
  function Own(k: nat): nat { k }

  /** The size given to the Put that read at step x: one Put is large, all others take nothing. */
  function SizeAt(x: nat, large: nat, size: nat): nat {
    if x == large then size else 0
  }

  /** A key of its own for each step, in the shard the step is on. */
  function KeyAt(n: nat, i: nat): nat {
    n * SHARDS + i % SHARDS
  }

  function Recast(step: Step<nat, nat>, n: nat, large: nat, size: nat): Step<nat, nat> {
    match step
    case Get(k) => Get(KeyAt(n, k))
    case Forget(k) => Forget(KeyAt(n, k))
    case ReadBudget(id, e) => ReadBudget(id, Entry(KeyAt(n, e.key), 0, SizeAt(n, large, size)))
    case _ => step
  }

  function RecastAll(steps: seq<Step<nat, nat>>, large: nat, size: nat): seq<Step<nat, nat>> {
    seq(|steps|, n requires 0 <= n < |steps| => Recast(steps[n], n, large, size))
  }

  lemma RecastAlike(steps: seq<Step<nat, nat>>, large: nat, size: nat)
    ensures SameOrder(Own, steps, RecastAll(steps, large, size))
  {
  }

  /** A run can take the step that one of the same order took. */
  lemma {:induction false} Follow(budget: int, r: seq<State<nat, nat>>, steps: seq<Step<nat, nat>>,
                                  r': seq<State<nat, nat>>, steps': seq<Step<nat, nat>>, step: Step<nat, nat>)
    requires Run(Own, budget, r, steps) && Run(Own, budget, r', steps') && |steps'| < |steps|
    requires (forall m | 0 <= m < |steps'| :: Alike(Own, steps[m], steps'[m])) && Alike(Own, steps[|steps'|], step)
    ensures Enabled(r'[|steps'|], step)
  {
    hide Apply, Enabled, Formed, Alike;
    var n := |steps'|;
    OrderControls(Own, budget, r, steps, r', steps', n);
    RunKeeps(Own, budget, r', steps', n);
    SoundForms(Own, r'[n]);
    StepControls(Own, r[n], r'[n], steps[n], step);
  }

  /** The run of the first n recast steps. */
  lemma {:induction false} RecastRun(budget: int, r: seq<State<nat, nat>>, steps: seq<Step<nat, nat>>, large: nat,
                                     size: nat, n: nat)
    returns (r': seq<State<nat, nat>>)
    requires Run(Own, budget, r, steps) && n <= |steps|
    ensures Run(Own, budget, r', RecastAll(steps, large, size)[..n])
  {
    hide Run, Apply, Enabled, Formed, Recast, Alike;
    var all := RecastAll(steps, large, size);
    if n == 0 {
      r' := StartRuns(budget);
    } else {
      r' := RecastRun(budget, r, steps, large, size, n - 1);
      RecastAlike(steps, large, size);
      RunLength(Own, budget, r', all[..n - 1]);
      Follow(budget, r, steps, r', all[..n - 1], all[n - 1]);
      var steps';
      r', steps' := Extend(Own, budget, r', all[..n - 1], all[n - 1]);
      assert all[..n] == steps';
    }
  }

  lemma StartRuns(budget: int) returns (r: seq<State<nat, nat>>)
    ensures Run(Own, budget, r, []) && |r| == 1
    ensures r[0].budget == budget && AtRest(r[0]) && |r[0].shards| == SHARDS && r[0].shards[0] == NONE
  {
    r := [Start(budget)];
  }

  /** What is stored when nothing was evicted: one entry for each Put of the log, the latest first. */
  function EntriesOf(log: seq<Record>, i: nat, large: nat, size: nat): seq<Entry<nat, nat>> {
    if log == [] then [] else
    var n := |log| - 1;
    var rest := EntriesOf(log[..n], i, large, size);
    if log[n].ByPut? then [Entry(KeyAt(log[n].read, i), 0, SizeAt(log[n].read, large, size))] + rest else rest
  }

  lemma {:induction false} EntriesSum(log: seq<Record>, spent: set<nat>, i: nat, large: nat, size: nat)
    requires LogReads(log, spent)
    ensures Sum(EntriesOf(log, i, large, size)) == if HasRead(log, large) then size else 0
  {
    hide Sum;
    if log == [] {
      NoSum();
    } else {
      var n := |log| - 1;
      var rest := EntriesOf(log[..n], i, large, size);
      EntriesSum(log[..n], spent, i, large, size);
      assert forall x | 0 <= x < n :: log[..n][x] == log[x];
      if log[n].ByPut? {
        var e := Entry(KeyAt(log[n].read, i), 0, SizeAt(log[n].read, large, size));
        SumConcat([e], rest);
        SumOne(e);
      }
    }
  }

  lemma NoSum()
    ensures Sum<nat, nat>([]) == 0
  {
  }

  /** Each entry is of a read in the log. */
  lemma {:induction false} EntriesFrom(log: seq<Record>, i: nat, large: nat, size: nat, x: nat)
    requires !HasRead(log, x)
    ensures forall j | 0 <= j < |EntriesOf(log, i, large, size)| :: EntriesOf(log, i, large, size)[j].key != KeyAt(x, i)
  {
    if log != [] {
      var n := |log| - 1;
      assert forall p | 0 <= p < n :: log[..n][p] == log[p];
      EntriesFrom(log[..n], i, large, size, x);
      if log[n].ByPut? { KeysApart(log[n].read, x, i); }
    }
  }

  lemma KeysApart(a: nat, b: nat, i: nat)
    requires a != b
    ensures KeyAt(a, i) != KeyAt(b, i)
  {
  }

  lemma {:induction false} EntriesCount(log: seq<Record>, i: nat, large: nat, size: nat, q: nat, p: nat)
    requires q < p < |log| && log[q].ByPut? && log[p].ByPut?
    ensures |EntriesOf(log, i, large, size)| >= 2
  {
    var n := |log| - 1;
    if p < n {
      EntriesCount(log[..n], i, large, size, q, p);
    } else {
      EntriesSome(log[..n], i, large, size, q);
    }
  }

  lemma {:induction false} EntriesSome(log: seq<Record>, i: nat, large: nat, size: nat, q: nat)
    requires q < |log| && log[q].ByPut?
    ensures |EntriesOf(log, i, large, size)| >= 1
  {
    var n := |log| - 1;
    if q < n { EntriesSome(log[..n], i, large, size, q); }
  }

  /** The latest cut leaves room for what is stored. */
  predicate Roomy(log: seq<Record>, large: nat, size: nat) {
    log != [] && HasRead(log, large) ==> log[|log| - 1].per >= size
  }

  /** Puts in flight carry the entries they were recast with. */
  ghost predicate Carried(s: State<nat, nat>, large: nat, size: nat) {
    forall id | id in s.calls && s.calls[id].Putting? ::
      var Putting(e, _, read) := s.calls[id];
      e == Entry(KeyAt(read, e.key), 0, SizeAt(read, large, size))
  }

  ghost predicate Stores(s: State<nat, nat>, i: nat, large: nat, size: nat) {
    && Carried(s, large, size)
    && i < |s.shards| && i < |s.logs| && s.shards[i].ll == EntriesOf(s.logs[i], i, large, size)
  }

  ghost predicate Ready(s: State<nat, nat>, step: Step<nat, nat>, orig: Step<nat, nat>, i: nat, large: nat, size: nat) {
    && Inv(Own, s) && FreshReads(s) && Stores(s, i, large, size) && i < SHARDS
    && step == Recast(orig, s.clock, large, size) && Enabled(s, step)
    && Roomy(Apply(Own, s, step).logs[i], large, size)
  }

  lemma HomeOf(n: nat, i: nat)
    ensures Home(Own, KeyAt(n, i)) == i % SHARDS && KeyAt(n, i % SHARDS) == KeyAt(n, i)
  {
  }

  /** A key of a step that read no budget is not stored. */
  lemma {:induction false} GetStores(s: State<nat, nat>, step: Step<nat, nat>, orig: Step<nat, nat>, i: nat,
                                     large: nat, size: nat)
    requires Ready(s, step, orig, i, large, size) && (step.Get? || step.Forget?)
    ensures Stores(Apply(Own, s, step), i, large, size)
  {
    hide Sound, LogHolds, KeyAt, EntriesOf, Without, Front, Carried;
    SoundWhole(s, i);
    HomeOf(s.clock, orig.k);
    CarriedLess(s, Apply(Own, s, step), large, size);
    if orig.k % SHARDS == i {
      assert LogReads(s.logs[i], s.spent);
      EntriesFrom(s.logs[i], i, large, size, s.clock);
      WithoutAbsent(s.shards[i].ll, step.k);
      FindAbsent(s.shards[i].ll, step.k);
    }
  }

  lemma {:induction false} PutStores(s: State<nat, nat>, step: Step<nat, nat>, orig: Step<nat, nat>, i: nat,
                                     large: nat, size: nat)
    requires Ready(s, step, orig, i, large, size) && step.LockPut?
    ensures Stores(Apply(Own, s, step), i, large, size)
  {
    hide Sound, LogHolds, KeyAt, EntriesOf, Without, Front, CutTo, Carried;
    var Putting(e, per, read) := s.calls[step.id];
    SoundWhole(s, i);
    CarriedOne(s, step.id, large, size);
    CarriedLess(s, Apply(Own, s, step), large, size);
    HomeOf(read, e.key);
    if Home(Own, e.key) == i {
      assert LogReads(s.logs[i], s.spent);
      EntriesFrom(s.logs[i], i, large, size, read);
      WithoutAbsent(s.shards[i].ll, e.key);
      FindAbsent(s.shards[i].ll, e.key);
      PutFits(s, i, e, per, read, large, size);
    }
  }

  lemma CarriedOne(s: State<nat, nat>, id: nat, large: nat, size: nat)
    requires Carried(s, large, size) && id in s.calls && s.calls[id].Putting?
    ensures s.calls[id].e == Entry(KeyAt(s.calls[id].read, s.calls[id].e.key), 0, SizeAt(s.calls[id].read, large, size))
  {
  }

  lemma CarriedLess(s: State<nat, nat>, t: State<nat, nat>, large: nat, size: nat)
    requires Carried(s, large, size)
    requires forall id | id in t.calls && t.calls[id].Putting? :: id in s.calls && s.calls[id] == t.calls[id]
    ensures Carried(t, large, size)
  {
    hide KeyAt;
  }

  lemma SoundWhole(s: State<nat, nat>, i: nat)
    requires Sound(Own, s) && i < SHARDS
    ensures Formed(s) && Whole(s.shards[i])
  {
  }

  lemma {:induction false} PutFits(s: State<nat, nat>, i: nat, e: Entry<nat, nat>, per: int, read: nat, large: nat,
                                   size: nat)
    requires i < |s.shards| && i < |s.logs| && Whole(s.shards[i]) && LogReads(s.logs[i], s.spent)
    requires read !in s.spent && per >= 1
    requires s.shards[i].ll == EntriesOf(s.logs[i], i, large, size)
    requires e == Entry(KeyAt(read, i), 0, SizeAt(read, large, size))
    requires Without(s.shards[i].ll, e.key) == s.shards[i].ll && Roomy(s.logs[i] + [ByPut(per, read)], large, size)
    ensures Filled(s.shards[i], e, per).ll == EntriesOf(s.logs[i] + [ByPut(per, read)], i, large, size)
  {
    hide Whole, KeyAt, Without, Find;
    var sh, log := s.shards[i], s.logs[i];
    var log' := log + [ByPut(per, read)];
    var front := Front(sh, e);
    assert log'[..|log|] == log;
    FrontWhole(sh, e);
    BytesAre(front);
    assert front.ll == EntriesOf(log', i, large, size);
    assert LogReads(log', s.spent + {read});
    EntriesSum(log', s.spent + {read}, i, large, size);
  }

  lemma {:induction false} TrimStores(s: State<nat, nat>, step: Step<nat, nat>, orig: Step<nat, nat>, i: nat,
                                      large: nat, size: nat)
    requires Ready(s, step, orig, i, large, size) && (step.TrimNext? || step.ClearNext?)
    ensures Stores(Apply(Own, s, step), i, large, size)
  {
    hide Sound, LogHolds, KeyAt, Whole, Carried, EntriesOf, CutTo, LogReads, Roomy;
    SoundWhole(s, i);
    CarriedLess(s, Apply(Own, s, step), large, size);
    NoEntries(i, large, size);
    if step.TrimNext? && s.calls[step.id].next == i { TrimFits(s, i, s.calls[step.id].per, large, size); }
  }

  lemma NoEntries(i: nat, large: nat, size: nat)
    ensures EntriesOf([], i, large, size) == []
  {
  }

  lemma {:induction false} TrimFits(s: State<nat, nat>, i: nat, per: int, large: nat, size: nat)
    requires i < |s.shards| && i < |s.logs| && Whole(s.shards[i]) && LogReads(s.logs[i], s.spent) && per >= 1
    requires s.shards[i].ll == EntriesOf(s.logs[i], i, large, size) && Roomy(s.logs[i] + [BySet(per)], large, size)
    ensures CutTo(s.shards[i], per).ll == EntriesOf(s.logs[i] + [BySet(per)], i, large, size)
  {
    hide Whole, KeyAt, Sum, LogReads, HasRead;
    var log := s.logs[i];
    assert (log + [BySet(per)])[..|log|] == log;
    HasReadMore(log, BySet(per), large);
    EntriesSum(log, s.spent, i, large, size);
    BytesAre(s.shards[i]);
  }

  lemma HasReadMore(log: seq<Record>, rec: Record, x: nat)
    ensures HasRead(log, x) ==> HasRead(log + [rec], x)
  {
    if p :| 0 <= p < |log| && log[p].ByPut? && log[p].read == x { assert (log + [rec])[p] == log[p]; }
  }

  lemma {:induction false} StepStores(s: State<nat, nat>, step: Step<nat, nat>, orig: Step<nat, nat>, i: nat,
                                      large: nat, size: nat)
    requires Ready(s, step, orig, i, large, size)
    ensures Stores(Apply(Own, s, step), i, large, size)
  {
    if step.Get? || step.Forget? {
      GetStores(s, step, orig, i, large, size);
    } else if step.LockPut? {
      PutStores(s, step, orig, i, large, size);
    } else if step.TrimNext? || step.ClearNext? {
      TrimStores(s, step, orig, i, large, size);
    } else if step.ReadBudget? {
      hide Sound, LogHolds, EntriesOf, KeyAt;
      HomeOf(s.clock, orig.e.key);
      HomeOf(s.clock, step.e.key);
    } else {
      hide Sound, LogHolds, EntriesOf, KeyAt;
    }
  }

  /** Through a recast run that always has room, every Put since the last Clear stays stored. */
  lemma {:induction false} RunStores(budget: int, r: seq<State<nat, nat>>, orig: seq<Step<nat, nat>>, i: nat,
                                     large: nat, size: nat, n: nat)
    requires Run(Own, budget, r, RecastAll(orig, large, size)) && n < |r| && i < SHARDS
    requires forall m | 0 <= m <= n :: |r[m].logs| == SHARDS && Roomy(r[m].logs[i], large, size)
    ensures Stores(r[n], i, large, size)
  {
    hide Apply, Enabled, Formed, Inv, FreshReads, Recast, Stores, Roomy;
    if n == 0 {
      StartStores(r[0], budget, i, large, size);
    } else {
      RunStores(budget, r, orig, i, large, size, n - 1);
      RunKeeps(Own, budget, r, RecastAll(orig, large, size), n - 1);
      var step := RecastAll(orig, large, size)[n - 1];
      assert r[n] == Apply(Own, r[n - 1], step) && Roomy(r[n].logs[i], large, size);
      StepStores(r[n - 1], step, orig[n - 1], i, large, size);
    }
  }

  lemma StartStores(s: State<nat, nat>, budget: int, i: nat, large: nat, size: nat)
    requires s == Start(budget) && i < SHARDS
    ensures Stores(s, i, large, size)
  {
  }

  /** The room: up to the large Put nothing is stored, and from it on every cut is to more than cur. */
  lemma {:induction false} AlwaysRoomy(budget: int, r: seq<State<nat, nat>>, steps: seq<Step<nat, nat>>, i: nat,
                                       p: nat, cur: nat, m: nat)
    requires Run(Own, budget, r, steps) && m < |r| && i < SHARDS && |r[m].logs| == |r[|steps|].logs| == SHARDS
    requires var log := r[|steps|].logs[i]; p < |log| && log[p].ByPut? && AllOver(log, p, cur)
    ensures Roomy(r[m].logs[i], r[|steps|].logs[i][p].read, cur + 1)
  {
    hide Run, Sound, LogHolds;
    RunLength(Own, budget, r, steps);
    var n := |steps|;
    var log, large := r[n].logs[i], r[n].logs[i][p].read;
    var now := r[m].logs[i];
    if HasRead(now, large) {
      assert HasRead(log, large);
      LogKeeps(Own, budget, r, steps, i, m, n, large);
      RunKeeps(Own, budget, r, steps, n);
      assert LogReads(log, r[n].spent);
      var x :| 0 <= x < |now| && now[x].ByPut? && now[x].read == large;
      assert log[x] == now[x];
      assert x == p;
      assert log[|now| - 1] == now[|now| - 1];
    }
  }

  lemma {:induction false} LogsFormed<K(!new), V(!new)>(home: K -> nat, budget: int, r: seq<State<K, V>>,
                                                        steps: seq<Step<K, V>>, n: nat)
    requires Run(home, budget, r, steps) && n < |r|
    ensures |r[n].logs| == |r[n].shards| == SHARDS
  {
    hide Run, Sound;
    RunKeeps(home, budget, r, steps, n);
    SoundForms(home, r[n]);
  }

  /** An order whose log is over cur has contents that are over cur. */
  lemma {:induction false} OverLeavesMore(budget: int, r: seq<State<nat, nat>>, steps: seq<Step<nat, nat>>, i: nat, cur: nat)
    returns (r': seq<State<nat, nat>>, steps': seq<Step<nat, nat>>)
    requires Run(Own, budget, r, steps) && i < SHARDS && |r[|steps|].logs| == SHARDS && Over(r[|steps|].logs[i], cur)
    ensures Run(Own, budget, r', steps') && SameOrder(Own, steps, steps')
    ensures |r'[|steps'|].shards| == SHARDS && !Fits(r'[|steps'|].shards[i], cur)
  {
    hide Run, RecastAll, EntriesOf, Roomy, Sum;
    RunLength(Own, budget, r, steps);
    var n := |steps|;
    var log := r[n].logs[i];
    var q, p :| 0 <= q < p < |log| && log[q].ByPut? && log[p].ByPut? && AllOver(log, p, cur);
    var large := log[p].read;
    steps' := RecastAll(steps, large, cur + 1);
    RecastAlike(steps, large, cur + 1);
    RecastLength(steps, large, cur + 1);
    r' := RecastRun(budget, r, steps, large, cur + 1, n);
    assert steps'[..n] == steps';
    RunLength(Own, budget, r', steps');
    OrderControls(Own, budget, r, steps, r', steps', n);
    forall m | 0 <= m <= n
      ensures |r'[m].logs| == SHARDS && Roomy(r'[m].logs[i], large, cur + 1)
    {
      LogsFormed(Own, budget, r', steps', m);
      LogsFormed(Own, budget, r', steps', n);
      AlwaysRoomy(budget, r', steps', i, p, cur, m);
    }
    RunStores(budget, r', steps, i, large, cur + 1, n);
    StoredIsOver(budget, r', steps', i, large, cur, q, p);
  }

  lemma RecastLength(steps: seq<Step<nat, nat>>, large: nat, size: nat)
    ensures |RecastAll(steps, large, size)| == |steps|
  {
  }

  lemma RunLength<K(!new), V(!new)>(home: K -> nat, budget: int, r: seq<State<K, V>>, steps: seq<Step<K, V>>)
    requires Run(home, budget, r, steps)
    ensures |r| == |steps| + 1
  {
  }

  lemma {:induction false} StoredIsOver(budget: int, r: seq<State<nat, nat>>, steps: seq<Step<nat, nat>>, i: nat,
                                        large: nat, cur: nat, q: nat, p: nat)
    requires Run(Own, budget, r, steps) && i < SHARDS && Stores(r[|steps|], i, large, cur + 1)
    requires var log := r[|steps|].logs[i]; q < p < |log| && log[q].ByPut? && log[p].ByPut? && log[p].read == large
    ensures |r[|steps|].shards| == SHARDS && !Fits(r[|steps|].shards[i], cur)
  {
    hide Run, Sum, EntriesOf;
    RunLength(Own, budget, r, steps);
    var n := |steps|;
    var log := r[n].logs[i];
    RunKeeps(Own, budget, r, steps, n);
    LogsFormed(Own, budget, r, steps, n);
    assert LogReads(log, r[n].spent);
    EntriesSum(log, r[n].spent, i, large, cur + 1);
    EntriesCount(log, i, large, cur + 1, q, p);
    BytesAre(r[n].shards[i]);
  }

  /** The part of the budget of each shard at the end of a run. */
  function Part<K, V>(s: State<K, V>): int {
    PerShard(s.budget)
  }

  /**
   Exactly which orders of reads and stores leave a shard within its part of the current budget,
   whatever is stored: those in which no Put, after another one since the last Clear, cut the
   shard with a larger budget that it had read, with no cut to the current budget or less since.
   */
  lemma {:induction false} FitsIff(budget: int, r: seq<State<nat, nat>>, steps: seq<Step<nat, nat>>, i: nat)
    requires Run(Own, budget, r, steps) && i < SHARDS
    ensures |r[|steps|].logs| == SHARDS
    ensures (forall r', steps' | Run(Own, budget, r', steps') && SameOrder(Own, steps, steps') :: FitsAtEnd(r', i))
            <==> !Over(r[|steps|].logs[i], Part(r[|steps|]))
  {
    hide Run, Over, Alike;
    var n := |steps|;
    RunLength(Own, budget, r, steps);
    LogsFormed(Own, budget, r, steps, n);
    if Over(r[n].logs[i], Part(r[n])) {
      var r', steps' := OverLeavesMore(budget, r, steps, i, Part(r[n]));
      RunLength(Own, budget, r', steps');
      OrderControls(Own, budget, r, steps, r', steps', n);
    } else {
      forall r', steps' | Run(Own, budget, r', steps') && SameOrder(Own, steps, steps')
        ensures FitsAtEnd(r', i)
      {
        RunLength(Own, budget, r', steps');
        OrderControls(Own, budget, r, steps, r', steps', n);
        FitsUnlessOver(Own, budget, r', steps', n, i, Part(r'[n]));
      }
    }
  }

  ghost predicate FitsAtEnd(r: seq<State<nat, nat>>, i: nat) {
    r != [] && i < |r[|r| - 1].shards| && Fits(r[|r| - 1].shards[i], Part(r[|r| - 1]))
  }

  // At rest.

  predicate AtRest<K, V>(s: State<K, V>) {
    s.calls == map[]
  }

  /** Every Put locks before the budget it read is replaced. */
  ghost predicate Prompt<K(!new), V(!new)>(r: seq<State<K, V>>, steps: seq<Step<K, V>>) {
    |r| == |steps| + 1 && forall n | 0 <= n < |steps| :: PromptStep(r[n], steps[n])
  }

  predicate PromptStep<K, V>(s: State<K, V>, step: Step<K, V>) {
    step.LockPut? && step.id in s.calls && s.calls[step.id].Putting? ==> s.calls[step.id].per == Part(s)
  }

  /** Since the last Put with a larger budget the shard was cut to cur or less. */
  ghost predicate NoLargePut(log: seq<Record>, cur: int) {
    forall p | 0 <= p < |log| && log[p].ByPut? && log[p].per > cur :: CutSince(log, p, cur)
  }

  ghost predicate CutSince(log: seq<Record>, p: nat, cur: int) {
    exists x | p < x < |log| :: log[x].per <= cur
  }

  /** A SetBudget that stored, or read the current budget, still has to come to shard i. */
  predicate ToCome<K, V>(s: State<K, V>, id: nat, i: nat) {
    id in s.calls && (s.calls[id].Stored? || (s.calls[id].Trimming? && s.calls[id].per == Part(s) && s.calls[id].next <= i))
  }

  ghost predicate Settled<K, V>(s: State<K, V>, i: nat) {
    i < |s.logs| && ((exists id :: ToCome(s, id, i)) || NoLargePut(s.logs[i], Part(s)))
  }

  lemma {:induction false} CutSettles(log: seq<Record>, rec: Record, cur: int)
    requires rec.per <= cur || (!rec.ByPut? && NoLargePut(log, cur))
    ensures NoLargePut(log + [rec], cur)
  {
    var log' := log + [rec];
    forall p | 0 <= p < |log'| && log'[p].ByPut? && log'[p].per > cur
      ensures CutSince(log', p, cur)
    {
      if rec.per <= cur {
        assert log'[|log|].per <= cur;
      } else {
        assert log[p] == log'[p] && CutSince(log, p, cur);
        var x :| p < x < |log| && log[x].per <= cur;
        assert log'[x].per <= cur;
      }
    }
  }

  lemma {:induction false} StepSettles<K(!new), V(!new)>(home: K -> nat, s: State<K, V>, step: Step<K, V>, i: nat)
    requires Formed(s) && Enabled(s, step) && PromptStep(s, step) && Settled(s, i) && i < SHARDS
    ensures Settled(Apply(home, s, step), i)
  {
    hide Filled, CutTo, Touched, Dropped, NoLargePut;
    var t := Apply(home, s, step);
    var log := s.logs[i];
    match step {
      case StoreBudget(id, _) => assert ToCome(t, id, i);
      case ReadPer(id) => assert ToCome(t, id, i);
      case LockPut(id) =>
        CutSettles(log, ByPut(s.calls[id].per, s.calls[id].read), Part(s));
        if x :| ToCome(s, x, i) { assert ToCome(t, x, i); }
      case TrimNext(id) =>
        var Trimming(per, next) := s.calls[id];
        if next == i && (per <= Part(s) || NoLargePut(log, Part(s))) { CutSettles(log, BySet(per), Part(s)); }
        if x :| ToCome(s, x, i) {
          if x != id || next < i { assert ToCome(t, x, i); }
        }
      case ClearNext(id) =>
        NoneSettles(Part(s));
        if x :| ToCome(s, x, i) { assert ToCome(t, x, i); }
      case _ =>
        if x :| ToCome(s, x, i) { assert ToCome(t, x, i); }
    }
  }

  lemma NoneSettles(cur: int)
    ensures NoLargePut([], cur)
  {
  }

  lemma {:induction false} RunSettles<K(!new), V(!new)>(home: K -> nat, budget: int, r: seq<State<K, V>>,
                                                        steps: seq<Step<K, V>>, n: nat, i: nat)
    requires Run(home, budget, r, steps) && Prompt(r, steps) && n < |r| && i < SHARDS
    ensures Settled(r[n], i)
  {
    hide Apply, Enabled, Formed, Settled, PromptStep;
    if n == 0 {
      StartSettled(r[0], budget, i);
    } else {
      RunSettles(home, budget, r, steps, n - 1, i);
      StepSettles(home, r[n - 1], steps[n - 1], i);
    }
  }

  lemma StartSettled<K(!new), V(!new)>(s: State<K, V>, budget: int, i: nat)
    requires s == Start(budget) && i < SHARDS
    ensures Settled(s, i)
  {
    NoneSettles(Part(s));
  }

  /** If every Put locks before the budget it read is replaced, then at rest every shard fits the current budget. */
  lemma {:induction false} PromptFitsAtRest<K(!new), V(!new)>(home: K -> nat, budget: int, r: seq<State<K, V>>,
                                                              steps: seq<Step<K, V>>, i: nat)
    requires Run(home, budget, r, steps) && Prompt(r, steps) && AtRest(r[|steps|]) && i < SHARDS
    ensures |r[|steps|].shards| == SHARDS && Fits(r[|steps|].shards[i], Part(r[|steps|]))
  {
    hide Run;
    var s := r[|steps|];
    RunSettles(home, budget, r, steps, |steps|, i);
    FitsUnlessOver(home, budget, r, steps, |steps|, i, Part(s));
  }

  /** When at rest all shards fit, whatever is stored: the condition of FitsIff, for each of them. */
  lemma {:induction false} FitsAtRestIff(budget: int, r: seq<State<nat, nat>>, steps: seq<Step<nat, nat>>)
    requires Run(Own, budget, r, steps) && AtRest(r[|steps|])
    ensures |r[|steps|].logs| == SHARDS
    ensures (forall r', steps' | Run(Own, budget, r', steps') && SameOrder(Own, steps, steps') :: AllFitAtRest(r'))
            <==> (forall i | 0 <= i < SHARDS :: !Over(r[|steps|].logs[i], Part(r[|steps|])))
  {
    hide Run, Over, Alike, FitsAtEnd;
    RunLength(Own, budget, r, steps);
    LogsFormed(Own, budget, r, steps, |steps|);
    if forall i | 0 <= i < SHARDS :: !Over(r[|steps|].logs[i], Part(r[|steps|])) {
      forall r', steps' | Run(Own, budget, r', steps') && SameOrder(Own, steps, steps')
        ensures AllFitAtRest(r')
      {
        EndsAtRest(budget, r, steps, r', steps');
        forall i | 0 <= i < SHARDS
          ensures FitsAtEnd(r', i)
        {
          FitsIff(budget, r, steps, i);
        }
      }
    } else {
      var i :| 0 <= i < SHARDS && Over(r[|steps|].logs[i], Part(r[|steps|]));
      FitsIff(budget, r, steps, i);
    }
  }

  ghost predicate AllFitAtRest(r: seq<State<nat, nat>>) {
    r != [] && AtRest(r[|r| - 1]) && forall i | 0 <= i < SHARDS :: FitsAtEnd(r, i)
  }

  lemma {:induction false} EndsAtRest(budget: int, r: seq<State<nat, nat>>, steps: seq<Step<nat, nat>>,
                                      r': seq<State<nat, nat>>, steps': seq<Step<nat, nat>>)
    requires Run(Own, budget, r, steps) && Run(Own, budget, r', steps') && SameOrder(Own, steps, steps')
    requires AtRest(r[|steps|])
    ensures r' != [] && AtRest(r'[|r'| - 1])
  {
    hide Run, Alike;
    RunLength(Own, budget, r, steps);
    RunLength(Own, budget, r', steps');
    OrderControls(Own, budget, r, steps, r', steps', |steps|);
  }

  // A run in which a Put straddles a SetBudget.

  lemma {:induction false} Extend<K(!new), V(!new)>(home: K -> nat, budget: int, r: seq<State<K, V>>,
                                                    steps: seq<Step<K, V>>, step: Step<K, V>)
    returns (r': seq<State<K, V>>, steps': seq<Step<K, V>>)
    requires Run(home, budget, r, steps) && Enabled(r[|steps|], step)
    ensures Formed(r[|steps|]) && Run(home, budget, r', steps') && steps' == steps + [step]
    ensures r'[|steps'|] == Apply(home, r[|steps|], step)
  {
    hide Apply, Enabled, Formed;
    RunKeeps(home, budget, r, steps, |steps|);
    SoundForms(home, r[|steps|]);
    r', steps' := r + [Apply(home, r[|steps|], step)], steps + [step];
  }

  /** A SetBudget alone comes to its end, and leaves the shards it has passed as they are. */
  lemma {:induction false} Finish<K(!new), V(!new)>(home: K -> nat, budget: int, r: seq<State<K, V>>,
                                                    steps: seq<Step<K, V>>, id: nat)
    returns (r': seq<State<K, V>>, steps': seq<Step<K, V>>)
    requires Run(home, budget, r, steps)
    requires r[|steps|].calls.Keys == {id} && r[|steps|].calls[id].Trimming? && 0 < r[|steps|].calls[id].next < SHARDS
    ensures Run(home, budget, r', steps') && AtRest(r'[|steps'|]) && r'[|steps'|].budget == r[|steps|].budget
    ensures 0 < |r'[|steps'|].shards| && 0 < |r[|steps|].shards| && r'[|steps'|].shards[0] == r[|steps|].shards[0]
    decreases SHARDS - r[|steps|].calls[id].next
  {
    hide Run, CutTo;
    RunLength(home, budget, r, steps);
    var s := r[|steps|];
    r', steps' := Extend(home, budget, r, steps, TrimNext(id));
    RunLength(home, budget, r', steps');
    var t := r'[|steps'|];
    if s.calls[id].next + 1 == SHARDS {
      assert t.calls.Keys == {};
    } else {
      assert t.calls.Keys == {id};
      r', steps' := Finish(home, budget, r', steps', id);
    }
  }

  const A: Entry<nat, nat> := Entry(64, 0, 1)
  const B: Entry<nat, nat> := Entry(128, 0, 1)
  const C: Entry<nat, nat> := Entry(192, 0, 1)

  // Shard 0 as the run leaves it, cut by cut.
  const NONE: Shard<nat, nat> := Shard([], {}, 0)
  const ONE: Shard<nat, nat> := Shard([A], {64}, 1)
  const TWO: Shard<nat, nat> := Shard([B, A], {64, 128}, 2)
  const TRIMMED: Shard<nat, nat> := Shard([B], {128}, 1)
  const OVER: Shard<nat, nat> := Shard([C, B], {128, 192}, 2)

  lemma CutsOfRun()
    ensures Filled(NONE, A, 2) == ONE && Filled(ONE, B, 2) == TWO && CutTo(TWO, 1) == TRIMMED
    ensures Filled(TRIMMED, C, 2) == OVER
  {
    WithoutAbsent(ONE.ll, 128);
    WithoutAbsent(TRIMMED.ll, 192);
    assert [B, A][..1] == [B];
  }

  /** Two Puts, a third that has read the budget, a SetBudget that has cut shard 0, and then the third. */
  lemma {:induction false} ThirdPut() returns (r: seq<State<nat, nat>>, steps: seq<Step<nat, nat>>)
    ensures Run(Own, 128, r, steps)
    ensures var s := r[|steps|];
            && s.budget == 64 && s.calls == map[4 := Trimming(1, 1)]
            && |s.shards| == SHARDS && s.shards[0] == OVER
  {
    hide Run, Filled, CutTo;
    CutsOfRun();
    r, steps := TwoPuts();
    RunLength(Own, 128, r, steps);
    r, steps := Extend(Own, 128, r, steps, ReadBudget(3, C));
    RunLength(Own, 128, r, steps);
    r, steps := Extend(Own, 128, r, steps, StoreBudget(4, 64));
    RunLength(Own, 128, r, steps);
    r, steps := Extend(Own, 128, r, steps, ReadPer(4));
    RunLength(Own, 128, r, steps);
    r, steps := Extend(Own, 128, r, steps, TrimNext(4));
    RunLength(Own, 128, r, steps);
    r, steps := Extend(Own, 128, r, steps, LockPut(3));
    RunLength(Own, 128, r, steps);
  }

  /** A Put into shard 0 with nothing else going on. */
  lemma {:induction false} PutAlone(budget: int, r: seq<State<nat, nat>>, steps: seq<Step<nat, nat>>, id: nat,
                                    e: Entry<nat, nat>)
    returns (r': seq<State<nat, nat>>, steps': seq<Step<nat, nat>>)
    requires Run(Own, budget, r, steps) && AtRest(r[|steps|]) && e.key % SHARDS == 0
    ensures Run(Own, budget, r', steps')
    ensures var s, s' := r[|steps|], r'[|steps'|];
            && s'.budget == s.budget && AtRest(s') && |s.shards| == |s'.shards| == SHARDS
            && s'.shards[0] == Filled(s.shards[0], e, Part(s))
  {
    hide Run, Filled;
    RunLength(Own, budget, r, steps);
    r', steps' := Extend(Own, budget, r, steps, ReadBudget(id, e));
    RunLength(Own, budget, r', steps');
    r', steps' := Extend(Own, budget, r', steps', LockPut(id));
    RunLength(Own, budget, r', steps');
  }

  lemma {:induction false} TwoPuts() returns (r: seq<State<nat, nat>>, steps: seq<Step<nat, nat>>)
    ensures Run(Own, 128, r, steps)
    ensures var s := r[|steps|]; s.budget == 128 && s.calls == map[] && |s.shards| == SHARDS && s.shards[0] == TWO
  {
    hide Run, Filled, CutTo;
    CutsOfRun();
    r := StartRuns(128);
    steps := [];
    r, steps := PutAlone(128, r, steps, 1, A);
    RunLength(Own, 128, r, steps);
    r, steps := PutAlone(128, r, steps, 2, B);
    RunLength(Own, 128, r, steps);
  }

  /**
   It is not always so that at rest every shard fits the current budget: a Put that read the old
   budget and locks after a SetBudget has passed its shard leaves the shard over the new one.
   */
  lemma {:induction false} StraddlingPut() returns (r: seq<State<nat, nat>>, steps: seq<Step<nat, nat>>)
    ensures Run(Own, 128, r, steps) && AtRest(r[|steps|])
    ensures var s := r[|steps|]; 0 < |s.shards| && s.shards[0].bytes == 2 && Part(s) == 1 && !Fits(s.shards[0], Part(s))
  {
    hide Run;
    r, steps := ThirdPut();
    RunLength(Own, 128, r, steps);
    r, steps := Finish(Own, 128, r, steps, 4);
  }
}
