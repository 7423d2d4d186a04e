/**
 The cache over every interleaving: a Put reads its shard budget before it locks, a SetBudget stores
 the new one, reads it back and then cuts one shard at a time, and so does a Clear.
 */
module LruRuns {
  import opened Options
  import opened LruCache

  /** What cut a shard: a Put, with the step at which it read the budget, or a SetBudget. */
  datatype Record = ByPut(per: int, read: nat) | BySet(per: int)

  /** Where a call is between its steps. */
  datatype Call<K, V> =
    | Putting(e: Entry<K, V>, per: int, read: nat)
    | Stored
    | Trimming(per: int, next: nat)
    | Clearing(next: nat)

  /** logs is what cut each shard since it was last cleared, and spent the reads of the Puts done; no code reads either. */
  datatype State<K, V> = State(budget: int, bytes: int, shards: seq<Shard<K, V>>, calls: map<nat, Call<K, V>>,
                               logs: seq<seq<Record>>, spent: set<nat>, clock: nat)

  datatype Step<K, V> =
    | Get(k: K)
    | Forget(k: K)
    | ReadBudget(id: nat, e: Entry<K, V>)
    | LockPut(id: nat)
    | StoreBudget(id: nat, total: int)
    | ReadPer(id: nat)
    | TrimNext(id: nat)
    | StartClear(id: nat)
    | ClearNext(id: nat)

  function Start<K, V>(budget: int): State<K, V> {
    State(budget, 0, seq(SHARDS, i => Shard([], {}, 0)), map[], seq(SHARDS, i => []), {}, 0)
  }

  predicate Formed<K, V>(s: State<K, V>) {
    && |s.shards| == SHARDS == |s.logs|
    && forall id | id in s.calls ::
         match s.calls[id]
         case Putting(_, per, read) => per >= 1 && read < s.clock && read !in s.spent
         case Stored => true
         case Trimming(per, next) => per >= 1 && next < SHARDS
         case Clearing(next) => next < SHARDS
  }

  predicate Enabled<K, V>(s: State<K, V>, step: Step<K, V>) {
    match step
    case Get(_) => true
    case Forget(_) => true
    case ReadBudget(id, _) => id !in s.calls
    case LockPut(id) => id in s.calls && s.calls[id].Putting?
    case StoreBudget(id, _) => id !in s.calls
    case ReadPer(id) => id in s.calls && s.calls[id].Stored?
    case TrimNext(id) => id in s.calls && s.calls[id].Trimming?
    case StartClear(id) => id !in s.calls
    case ClearNext(id) => id in s.calls && s.calls[id].Clearing?
  }

  /** One shard changes, and the global counter by as much. */
  function With<K, V>(s: State<K, V>, i: nat, sh: Shard<K, V>): State<K, V>
    requires i < |s.shards|
  {
    s.(shards := s.shards[i := sh], bytes := s.bytes - s.shards[i].bytes + sh.bytes)
  }

  function Home<K(!new)>(home: K -> nat, k: K): nat {
    home(k) % SHARDS
  }

  function Apply<K(==, !new), V(!new)>(home: K -> nat, s: State<K, V>, step: Step<K, V>): State<K, V>
    requires Formed(s) && Enabled(s, step)
  {
    var s := s.(clock := s.clock + 1);
    match step
    case Get(k) => With(s, Home(home, k), Touched(s.shards[Home(home, k)], k))
    case Forget(k) => With(s, Home(home, k), Dropped(s.shards[Home(home, k)], k))
    case ReadBudget(id, e) => s.(calls := s.calls[id := Putting(e, PerShard(s.budget), s.clock - 1)])
    case LockPut(id) =>
      var Putting(e, per, read) := s.calls[id];
      var i := Home(home, e.key);
      With(s, i, Filled(s.shards[i], e, per))
        .(calls := s.calls - {id}, logs := s.logs[i := s.logs[i] + [ByPut(per, read)]], spent := s.spent + {read})
    case StoreBudget(id, total) => s.(budget := if total < 0 then 0 else total, calls := s.calls[id := Stored])
    case ReadPer(id) => s.(calls := s.calls[id := Trimming(PerShard(s.budget), 0)])
    case TrimNext(id) =>
      var Trimming(per, i) := s.calls[id];
      With(s, i, CutTo(s.shards[i], per))
        .(calls := if i + 1 == SHARDS then s.calls - {id} else s.calls[id := Trimming(per, i + 1)],
          logs := s.logs[i := s.logs[i] + [BySet(per)]])
    case StartClear(id) => s.(calls := s.calls[id := Clearing(0)])
    case ClearNext(id) =>
      var Clearing(i) := s.calls[id];
      With(s, i, Shard([], {}, 0))
        .(calls := if i + 1 == SHARDS then s.calls - {id} else s.calls[id := Clearing(i + 1)], logs := s.logs[i := []])
  }

  ghost predicate Run<K(!new), V(!new)>(home: K -> nat, budget: int, r: seq<State<K, V>>, steps: seq<Step<K, V>>) {
    && |r| == |steps| + 1 && r[0] == Start(budget)
    && forall n | 0 <= n < |steps| :: Formed(r[n]) && Enabled(r[n], steps[n]) && r[n + 1] == Apply(home, r[n], steps[n])
  }

  // What holds in every state of every run.

  /** Every shard is whole and holds only its own keys, and the global counter is their sum. */
  ghost predicate Sound<K(!new), V(!new)>(home: K -> nat, s: State<K, V>) {
    && Formed(s)
    && (forall i | 0 <= i < SHARDS :: Whole(s.shards[i]))
    && (forall i, k | 0 <= i < SHARDS && k in s.shards[i].items :: Home(home, k) == i)
    && s.bytes == Total(s.shards)
  }

  /** Two Puts cut the shard since it was cleared, and from the later one on every cut was to more than cur. */
  ghost predicate Over(log: seq<Record>, cur: int) {
    exists q, p | 0 <= q < p < |log| :: log[q].ByPut? && log[p].ByPut? && AllOver(log, p, cur)
  }

  ghost predicate AllOver(log: seq<Record>, p: nat, cur: int) {
    forall x | p <= x < |log| :: log[x].per > cur
  }

  predicate NoPut(log: seq<Record>) {
    forall x | 0 <= x < |log| :: !log[x].ByPut?
  }

  /** What a shard's log says of it. */
  ghost predicate LogHolds<K, V>(sh: Shard<K, V>, log: seq<Record>) {
    && (NoPut(log) ==> sh.ll == [])
    && (log != [] ==> Fits(sh, log[|log| - 1].per))
    && (forall cur: int :: !Over(log, cur) ==> Fits(sh, cur))
  }

  /** A shard with less in it, and the same log. */
  lemma LessHolds<K(!new), V(!new)>(sh: Shard<K, V>, t: Shard<K, V>, log: seq<Record>)
    requires LogHolds(sh, log) && t.bytes <= sh.bytes && |t.ll| <= |sh.ll|
    ensures LogHolds(t, log)
  {
    hide Over;
  }

  /** A Put with more than cur, after another Put, is over cur; and so is a log that was, cut to more. */
  lemma {:induction false} OverMore(log: seq<Record>, rec: Record, cur: int)
    requires rec.per > cur && (Over(log, cur) || (rec.ByPut? && !NoPut(log)))
    ensures Over(log + [rec], cur)
  {
    var log' := log + [rec];
    assert forall x | 0 <= x < |log| :: log'[x] == log[x];
    if Over(log, cur) {
      var q, p :| 0 <= q < p < |log| && log[q].ByPut? && log[p].ByPut? && AllOver(log, p, cur);
      assert log'[q].ByPut? && log'[p].ByPut? && AllOver(log', p, cur);
    } else {
      var q :| 0 <= q < |log| && log[q].ByPut?;
      assert log'[q].ByPut? && log'[|log|].ByPut? && AllOver(log', |log|, cur);
    }
  }

  lemma {:induction false} PutHolds<K(!new), V(!new)>(sh: Shard<K, V>, log: seq<Record>, t: Shard<K, V>, per: int, read: nat)
    requires LogHolds(sh, log) && Fits(t, per) && (sh.ll == [] ==> |t.ll| <= 1)
    ensures LogHolds(t, log + [ByPut(per, read)])
  {
    hide Over;
    var log' := log + [ByPut(per, read)];
    assert log'[|log|].ByPut?;
    forall cur: int
      ensures !Over(log', cur) ==> Fits(t, cur)
    {
      if per > cur && !NoPut(log) { OverMore(log, ByPut(per, read), cur); }
    }
  }

  lemma {:induction false} CutHolds<K(!new), V(!new)>(sh: Shard<K, V>, log: seq<Record>, t: Shard<K, V>, per: int)
    requires LogHolds(sh, log) && Fits(t, per) && t.bytes <= sh.bytes && |t.ll| <= |sh.ll|
    ensures LogHolds(t, log + [BySet(per)])
  {
    hide Over;
    var log' := log + [BySet(per)];
    assert forall x | 0 <= x < |log| :: log'[x] == log[x];
    forall cur: int
      ensures !Over(log', cur) ==> Fits(t, cur)
    {
      if per > cur && Over(log, cur) { OverMore(log, BySet(per), cur); }
    }
  }

  ghost predicate Inv<K(!new), V(!new)>(home: K -> nat, s: State<K, V>) {
    Sound(home, s) && forall i | 0 <= i < SHARDS :: LogHolds(s.shards[i], s.logs[i])
  }

  /** Putting a whole shard in place of another keeps the cache sound. */
  lemma {:induction false} WithSound<K(!new), V(!new)>(home: K -> nat, s: State<K, V>, i: nat, sh: Shard<K, V>)
    requires Sound(home, s) && i < SHARDS && Whole(sh) && forall k | k in sh.items :: Home(home, k) == i
    ensures Sound(home, With(s, i, sh))
  {
    hide Whole;
    TotalUpdate(s.shards, i, sh);
  }

  lemma {:induction false} GetKeeps<K(!new), V(!new)>(home: K -> nat, s: State<K, V>, step: Step<K, V>)
    requires Inv(home, s) && (step.Get? || step.Forget?)
    ensures Inv(home, Apply(home, s, step))
  {
    hide Whole, Without, LogHolds, Front, Total;
    var i := Home(home, step.k);
    var sh := s.shards[i];
    var t := if step.Get? then Touched(sh, step.k) else Dropped(sh, step.k);
    if step.Get? { TouchedLess(sh, step.k); } else { DroppedLess(sh, step.k); }
    LessHolds(sh, t, s.logs[i]);
    WithSound(home, s, i, t);
  }

  lemma {:induction false} TouchedLess<K(!new), V(!new)>(sh: Shard<K, V>, k: K)
    requires Whole(sh)
    ensures var t := Touched(sh, k); Whole(t) && t.items == sh.items && t.bytes == sh.bytes && |t.ll| == |sh.ll|
  {
    hide Whole, Front;
    var e := Find(sh.ll, k);
    if e.Some? {
      FrontWhole(sh, e.value);
      FrontKeeps(sh, e.value);
    }
  }

  lemma {:induction false} DroppedLess<K(!new), V(!new)>(sh: Shard<K, V>, k: K)
    requires Whole(sh)
    ensures var t := Dropped(sh, k); Whole(t) && t.items <= sh.items && t.bytes <= sh.bytes && |t.ll| <= |sh.ll|
  {
    hide Whole, Without;
    DroppedWhole(sh, k);
  }

  lemma {:induction false} PutKeeps<K(!new), V(!new)>(home: K -> nat, s: State<K, V>, step: Step<K, V>)
    requires Inv(home, s) && step.LockPut? && Enabled(s, step) && FreshReads(s)
    ensures Inv(home, Apply(home, s, step))
  {
    hide Whole, LogHolds, Filled, Total;
    var Putting(e, per, read) := s.calls[step.id];
    var i := Home(home, e.key);
    var sh := s.shards[i];
    FilledHas(sh, e, per);
    FilledAlone(sh, e, per);
    PutHolds(sh, s.logs[i], Filled(sh, e, per), per, read);
    WithSound(home, s, i, Filled(sh, e, per));
  }

  lemma {:induction false} FilledAlone<K(!new), V(!new)>(sh: Shard<K, V>, e: Entry<K, V>, per: int)
    requires Whole(sh)
    ensures sh.ll == [] ==> |Filled(sh, e, per).ll| <= 1
  {
    hide Whole, CutTo;
    FrontWhole(sh, e);
    CutIsLongest(Front(sh, e), per);
  }

  lemma {:induction false} TrimKeeps<K(!new), V(!new)>(home: K -> nat, s: State<K, V>, step: Step<K, V>)
    requires Inv(home, s) && step.TrimNext? && Enabled(s, step)
    ensures Inv(home, Apply(home, s, step))
  {
    hide Whole, LogHolds, CutTo, Total;
    var Trimming(per, i) := s.calls[step.id];
    CutIsLongest(s.shards[i], per);
    CutHolds(s.shards[i], s.logs[i], CutTo(s.shards[i], per), per);
    WithSound(home, s, i, CutTo(s.shards[i], per));
  }

  lemma {:induction false} ClearKeeps<K(!new), V(!new)>(home: K -> nat, s: State<K, V>, step: Step<K, V>)
    requires Inv(home, s) && step.ClearNext? && Enabled(s, step)
    ensures Inv(home, Apply(home, s, step))
  {
    hide Whole, Total;
    var Clearing(i) := s.calls[step.id];
    var none: Shard<K, V> := Shard([], {}, 0);
    NothingWhole(none);
    WithSound(home, s, i, none);
  }

  /** Each Put reads once: calls in flight have reads of their own, and none of those done. */
  ghost predicate FreshReads<K, V>(s: State<K, V>) {
    && (forall n | n in s.spent :: n < s.clock)
    && (forall a, b | a in s.calls && b in s.calls && a != b && s.calls[a].Putting? && s.calls[b].Putting? ::
          s.calls[a].read != s.calls[b].read)
    && (forall i | 0 <= i < |s.logs| :: LogReads(s.logs[i], s.spent))
  }

  /** The reads of a log are done, and each is there once. */
  ghost predicate LogReads(log: seq<Record>, spent: set<nat>) {
    && (forall x | 0 <= x < |log| :: log[x].per >= 1 && (log[x].ByPut? ==> log[x].read in spent))
    && (forall x, y | 0 <= x < y < |log| && log[x].ByPut? && log[y].ByPut? :: log[x].read != log[y].read)
  }

  lemma {:induction false} ReadsKeep<K(!new), V(!new)>(home: K -> nat, s: State<K, V>, step: Step<K, V>)
    requires Formed(s) && Enabled(s, step) && FreshReads(s)
    ensures var t := Apply(home, s, step);
            FreshReads(t) && Formed(t) && s.spent <= t.spent && t.clock == s.clock + 1
  {
    hide Filled, CutTo, Touched, Dropped;
    var t := Apply(home, s, step);
    forall i | 0 <= i < |t.logs|
      ensures LogReads(t.logs[i], t.spent)
    {
      assert LogReads(s.logs[i], s.spent);
    }
  }

  /** Every step of every call, in any order, keeps the invariant. */
  lemma {:induction false} StepKeeps<K(!new), V(!new)>(home: K -> nat, s: State<K, V>, step: Step<K, V>)
    requires Inv(home, s) && FreshReads(s) && Enabled(s, step)
    ensures Inv(home, Apply(home, s, step)) && FreshReads(Apply(home, s, step))
  {
    ReadsKeep(home, s, step);
    hide FreshReads, LogHolds, Whole, Total, Filled, CutTo, Touched, Dropped;
    match step {
      case Get(_) => GetKeeps(home, s, step);
      case Forget(_) => GetKeeps(home, s, step);
      case LockPut(_) => PutKeeps(home, s, step);
      case TrimNext(_) => TrimKeeps(home, s, step);
      case ClearNext(_) => ClearKeeps(home, s, step);
      case _ =>
    }
  }

  lemma {:induction false} RunKeeps<K(!new), V(!new)>(home: K -> nat, budget: int, r: seq<State<K, V>>,
                                                      steps: seq<Step<K, V>>, n: nat)
    requires Run(home, budget, r, steps) && n < |r|
    ensures Inv(home, r[n]) && FreshReads(r[n]) && r[n].clock == n
  {
    hide Inv, FreshReads, Apply, Enabled, Formed;
    if n == 0 {
      StartHolds(home, r[0], budget);
    } else {
      RunKeeps(home, budget, r, steps, n - 1);
      StepKeeps(home, r[n - 1], steps[n - 1]);
      ReadsKeep(home, r[n - 1], steps[n - 1]);
    }
  }

  lemma StartHolds<K(!new), V(!new)>(home: K -> nat, s: State<K, V>, budget: int)
    requires s == Start(budget)
    ensures Inv(home, s) && FreshReads(s) && s.clock == 0
  {
    var none: Shard<K, V> := Shard([], {}, 0);
    NothingWhole(none);
    TotalNothing(s.shards);
  }

  /**
   In every run, however the calls interleave: list, index and both counters of every shard agree,
   and every shard fits the budget that the last call to cut it had read, or holds one entry.
   */
  lemma {:induction false} FitsWhatWasRead<K(!new), V(!new)>(home: K -> nat, budget: int, r: seq<State<K, V>>,
                                                             steps: seq<Step<K, V>>, n: nat, i: nat)
    requires Run(home, budget, r, steps) && n < |r| && i < SHARDS
    ensures Sound(home, r[n])
    ensures r[n].logs[i] != [] ==> Fits(r[n].shards[i], r[n].logs[i][|r[n].logs[i]| - 1].per)
    ensures r[n].logs[i] == [] ==> r[n].shards[i].ll == []
  {
    hide Run, Sound;
    RunKeeps(home, budget, r, steps, n);
    SoundForms(home, r[n]);
    assert LogHolds(r[n].shards[i], r[n].logs[i]);
  }

  lemma SoundForms<K(!new), V(!new)>(home: K -> nat, s: State<K, V>)
    requires Sound(home, s)
    ensures Formed(s)
  {
  }

  /** In every run a shard fits any budget its log is not over. */
  lemma {:induction false} FitsUnlessOver<K(!new), V(!new)>(home: K -> nat, budget: int, r: seq<State<K, V>>,
                                                            steps: seq<Step<K, V>>,
                                                            n: nat, i: nat, cur: int)
    requires Run(home, budget, r, steps) && n < |r| && i < SHARDS
    ensures |r[n].logs| == |r[n].shards| == SHARDS && (!Over(r[n].logs[i], cur) ==> Fits(r[n].shards[i], cur))
  {
    hide Run, Sound, Over;
    RunKeeps(home, budget, r, steps, n);
    SoundForms(home, r[n]);
    assert LogHolds(r[n].shards[i], r[n].logs[i]);
  }
}
