/**
 Which way the module-fallback fetch is judged, in every run: what was used decides, the build is
 given its lookups first, and nothing is sent out of turn.
 */
module FallbackRuns {
  import opened Fallback

  /** Enough of what was fetched has been used: a fifth. */
  predicate EnoughUsed(f: Judge) {
    f.used * 5 >= f.fetched
  }

  /** A part that lands is judged when it falls due, and can pause the fetch but not stop it. */
  lemma LandFacts(f: Judge, keys: nat, arrived: seq<string>)
    requires Verdict(f)
    ensures var g := Landed(f, keys, arrived);
            && g.lookups == f.lookups && g.used == f.used && g.stopped == f.stopped && g.landed == f.landed + keys
            && (f.paused ==> g.paused && g.pausedAt == f.pausedAt && g.due == f.due)
            && (!f.paused && (f.stopped || g.landed < f.due) ==> !g.paused && g.due == f.due)
            && (!f.paused && !f.stopped && g.landed >= f.due ==>
                  if EnoughUsed(g) then !g.paused && g.due == 2 * f.due
                  else g.paused && g.pausedAt == f.lookups && g.due == f.due)
  {
    hide Ids;
  }

  /** A lookup ends a pause by enough use, or stops the fetch once there were enough lookups. */
  lemma LookupFacts(f: Judge, id: string, local: bool)
    requires Verdict(f)
    ensures var g := LookedUp(f, id, local);
            && g.lookups == f.lookups + 1 && g.fetched == f.fetched && g.landed == f.landed
            && (!f.paused ==> !g.paused && g.stopped == f.stopped && g.due == f.due)
            && (f.paused ==>
                  if EnoughUsed(g) then !g.paused && !g.stopped && g.due == 2 * f.due
                  else g.due == f.due && g.paused != g.stopped && g.pausedAt == f.pausedAt
                       && (g.paused <==> 2 * (g.lookups - g.pausedAt) < g.fetched))
  {
  }

  /** Only these two change what the judge knows. */
  lemma OtherFacts(s: State, step: Step)
    requires Enabled(s, step)
    ensures !step.Land? && !step.Lookup? ==> Apply(s, step).f == s.f
    ensures step.Land? ==> Apply(s, step).f == Landed(s.f, s.flights[step.i], step.arrived)
    ensures step.Lookup? ==> Apply(s, step).f == LookedUp(s.f, step.id, step.local)
  {
    hide Landed, LookedUp, Without;
  }

  /** All of that, for one step of a run. */
  ghost predicate JudgedRight(f: Judge, step: Step, g: Judge) {
    && (!step.Land? && !step.Lookup? ==> g == f)
    && (step.Land? ==> g.lookups == f.lookups && g.used == f.used && g.stopped == f.stopped)
    && (step.Lookup? ==> g.lookups == f.lookups + 1 && g.fetched == f.fetched)
    && (f.paused ==> !f.stopped && if !step.Lookup? then g.paused && g.pausedAt == f.pausedAt && g.due == f.due
                     else if EnoughUsed(g) then !g.paused && !g.stopped && g.due == 2 * f.due
                     else g.due == f.due && g.paused != g.stopped && g.pausedAt == f.pausedAt
                          && (g.paused <==> 2 * (g.lookups - g.pausedAt) < g.fetched))
    && (!f.paused ==> g.stopped == f.stopped &&
                      if step.Land? && !f.stopped && g.landed >= f.due
                      then if EnoughUsed(g) then !g.paused && g.due == 2 * f.due
                           else g.paused && g.pausedAt == f.lookups && g.due == f.due
                      else !g.paused && g.due == f.due)
  }

  lemma {:induction false} StepIsRight(r: seq<State>, steps: seq<Step>, ids: nat, k: nat)
    requires Run(r, steps, ids) && k < |steps|
    ensures JudgedRight(r[k].f, steps[k], r[k + 1].f)
  {
    hide Apply, Enabled, Landed, LookedUp, EnoughUsed, Flow, Counts, NoLostWake;
    RunKeeps(r, steps, ids, k);
    assert Enabled(r[k], steps[k]) && r[k + 1] == Apply(r[k], steps[k]);
    OtherFacts(r[k], steps[k]);
    if steps[k].Land? { LandIn(r[k], steps[k]); LandFacts(r[k].f, r[k].flights[steps[k].i], steps[k].arrived); }
    if steps[k].Lookup? { LookupFacts(r[k].f, steps[k].id, steps[k].local); }
  }

  lemma LandIn(s: State, step: Step)
    requires Enabled(s, step)
    ensures step.Land? ==> step.i < |s.flights|
  {
  }

  /** The lookups among the first k steps. */
  ghost function Lookups(steps: seq<Step>, k: nat): nat
    requires k <= |steps|
  {
    if k == 0 then 0 else Lookups(steps, k - 1) + if steps[k - 1].Lookup? then 1 else 0
  }

  lemma {:induction false} LookupsCounted(r: seq<State>, steps: seq<Step>, ids: nat, k: nat)
    requires Run(r, steps, ids) && k < |r|
    ensures r[k].f.lookups == Lookups(steps, k)
  {
    hide Apply, Enabled, EnoughUsed;
    if k > 0 {
      LookupsCounted(r, steps, ids, k - 1);
      StepIsRight(r, steps, ids, k - 1);
    }
  }

  /** The pause of state k began with step m. */
  ghost predicate PausedSince(r: seq<State>, steps: seq<Step>, m: nat, k: nat)
    requires m < k < |r| && |r| == |steps| + 1
  {
    && !r[m].f.paused && steps[m].Land?
    && forall x | m < x <= k :: r[x].f.paused
  }

  /** A pause began with a part that landed, and the judge remembers the lookups made by then. */
  lemma {:induction false} PauseBegan(r: seq<State>, steps: seq<Step>, ids: nat, k: nat) returns (m: nat)
    requires Run(r, steps, ids) && k < |r| && r[k].f.paused
    ensures m < k && PausedSince(r, steps, m, k) && r[k].f.pausedAt == Lookups(steps, m)
  {
    hide Apply, Enabled, EnoughUsed;
    LookupsCounted(r, steps, ids, k - 1);
    StepIsRight(r, steps, ids, k - 1);
    if r[k - 1].f.paused {
      m := PauseBegan(r, steps, ids, k - 1);
    } else {
      m := k - 1;
    }
  }

  /**
   The fetch is stopped only when less than a fifth of what it brought was used and the build has
   made, since the pause began, half as many lookups as entries were brought. A stop is for good.
   */
  lemma {:induction false} StopsOnlyUnused(r: seq<State>, steps: seq<Step>, ids: nat, k: nat)
    requires Run(r, steps, ids) && k < |steps|
    ensures r[k].f.stopped ==> r[k + 1].f.stopped
    ensures !r[k].f.stopped && r[k + 1].f.stopped ==>
              && r[k].f.paused && steps[k].Lookup? && !EnoughUsed(r[k + 1].f)
              && exists m | 0 <= m < k ::
                   PausedSince(r, steps, m, k) && 2 * (Lookups(steps, k + 1) - Lookups(steps, m)) >= r[k + 1].f.fetched
  {
    hide Apply, Enabled, EnoughUsed, PausedSince;
    StepIsRight(r, steps, ids, k);
    LookupsCounted(r, steps, ids, k + 1);
    if r[k].f.paused { var m := PauseBegan(r, steps, ids, k); }
  }

  /** The part that lands makes the next sample due. */
  ghost predicate FellDue(r: seq<State>, steps: seq<Step>, k: nat)
    requires k < |steps| && |r| == |steps| + 1
  {
    steps[k].Land? && !r[k].f.paused && !r[k].f.stopped && r[k + 1].f.landed >= r[k].f.due
  }

  /**
   The next sample is due at twice as many as the last exactly when a pause ends, or a sample falls
   due, with enough used; and the number changes in no other way. It starts at 256.
   */
  lemma {:induction false} GoesOnIff(r: seq<State>, steps: seq<Step>, ids: nat, k: nat)
    requires Run(r, steps, ids) && k < |steps|
    ensures r[0].f.due == 256
    ensures r[k + 1].f.due == if ((r[k].f.paused && steps[k].Lookup?) || FellDue(r, steps, k)) && EnoughUsed(r[k + 1].f)
                              then 2 * r[k].f.due else r[k].f.due
    ensures r[k].f.paused && !r[k + 1].f.paused && !r[k + 1].f.stopped ==> EnoughUsed(r[k + 1].f) && steps[k].Lookup?
    ensures FellDue(r, steps, k) && !r[k + 1].f.paused ==> EnoughUsed(r[k + 1].f) && !r[k + 1].f.stopped
  {
    hide Apply, Enabled, EnoughUsed;
    StepIsRight(r, steps, ids, k);
  }

  /** A pause begins exactly when a sample falls due with too little used. */
  lemma {:induction false} PausesIff(r: seq<State>, steps: seq<Step>, ids: nat, k: nat)
    requires Run(r, steps, ids) && k < |steps|
    ensures !r[k].f.paused && r[k + 1].f.paused <==> FellDue(r, steps, k) && !EnoughUsed(r[k + 1].f)
  {
    hide Apply, Enabled, EnoughUsed;
    StepIsRight(r, steps, ids, k);
  }

  /** A pause is on exactly as long as too little is used and the lookups since it began are too few to say. */
  lemma {:induction false} PauseLasts(r: seq<State>, steps: seq<Step>, ids: nat, k: nat)
    requires Run(r, steps, ids) && k < |steps| && r[k].f.paused
    ensures r[k + 1].f.paused <==>
            || !steps[k].Lookup?
            || (!EnoughUsed(r[k + 1].f) && exists m | 0 <= m < k ::
                  PausedSince(r, steps, m, k) && 2 * (Lookups(steps, k + 1) - Lookups(steps, m)) < r[k + 1].f.fetched)
  {
    hide Apply, Enabled, EnoughUsed, PausedSince;
    StepIsRight(r, steps, ids, k);
    LookupsCounted(r, steps, ids, k + 1);
    var m := PauseBegan(r, steps, ids, k);
    forall m' | 0 <= m' < k && PausedSince(r, steps, m', k)
      ensures m' == m
    {
      OnePause(r, steps, m, m', k);
    }
  }

  lemma OnePause(r: seq<State>, steps: seq<Step>, m: nat, m': nat, k: nat)
    requires m < k < |r| && m' < k && |r| == |steps| + 1 && PausedSince(r, steps, m, k) && PausedSince(r, steps, m', k)
    ensures m == m'
  {
    assert r[m].f.paused == r[m'].f.paused;
  }

  // What counts as brought and as used.

  /** The id landed with step m, and no lookup has used it since. */
  ghost predicate LandedUnused(steps: seq<Step>, m: nat, k: nat, id: string)
    requires m < k <= |steps|
  {
    steps[m].Land? && id in steps[m].arrived && forall n | m < n < k :: steps[n] != Lookup(id, true)
  }

  lemma BroughtStep(s: State, step: Step, id: string)
    requires Enabled(s, step)
    ensures id in Apply(s, step).f.brought <==>
            (step.Land? && id in step.arrived) || (id in s.f.brought && step != Lookup(id, true))
  {
    hide Apply, Enabled;
    OtherFacts(s, step);
    LandIn(s, step);
  }

  /** What is held as brought is what landed and was not used since. */
  lemma {:induction false} BroughtIff(r: seq<State>, steps: seq<Step>, ids: nat, k: nat, id: string)
    requires Run(r, steps, ids) && k < |r|
    ensures id in r[k].f.brought <==> exists m | 0 <= m < k :: LandedUnused(steps, m, k, id)
  {
    hide Apply, Enabled;
    if k > 0 {
      var n := k - 1;
      BroughtIff(r, steps, ids, n, id);
      assert r[k] == Apply(r[n], steps[n]) && Enabled(r[n], steps[n]);
      BroughtStep(r[n], steps[n], id);
      forall m | 0 <= m < n && LandedUnused(steps, m, k, id)
        ensures LandedUnused(steps, m, n, id) && steps[n] != Lookup(id, true)
      {
      }
      if steps[n].Land? && id in steps[n].arrived {
        assert LandedUnused(steps, n, k, id);
      } else if id in r[k].f.brought {
        var m :| 0 <= m < n && LandedUnused(steps, m, n, id);
        assert LandedUnused(steps, m, k, id);
      }
    }
  }

  /** A use is a lookup that the cache answered, of an id that landed and was not used since. */
  lemma {:induction false} UsedIff(r: seq<State>, steps: seq<Step>, ids: nat, k: nat)
    requires Run(r, steps, ids) && k < |steps|
    ensures r[k + 1].f.used == r[k].f.used +
            if steps[k].Lookup? && steps[k].local && (exists m | 0 <= m < k :: LandedUnused(steps, m, k, steps[k].id)) then 1
            else 0
    ensures r[k + 1].f.fetched - r[k].f.fetched == if steps[k].Land? then |r[k + 1].f.brought| - |r[k].f.brought| else 0
  {
    hide Sum, Without, LandedUnused;
    RunKeeps(r, steps, ids, k);
    RunKeeps(r, steps, ids, k + 1);
    if steps[k].Lookup? { BroughtIff(r, steps, ids, k, steps[k].id); }
  }

  // What is sent.

  /**
   Keys are sent only in turn: not while a pause is on, not after a stop, and only below the next
   sample, at most 128 at a time; and every key is sent or left.
   */
  lemma {:induction false} SendsInTurn(r: seq<State>, steps: seq<Step>, ids: nat, k: nat)
    requires Run(r, steps, ids) && k < |steps|
    ensures r[k].dispatched + r[k].left == ids
    ensures r[k + 1].dispatched != r[k].dispatched ==>
              && steps[k].TakeTurn? && !r[k].f.paused && !r[k].f.stopped && r[k].dispatched < r[k].f.due
              && r[k].dispatched < r[k + 1].dispatched <= r[k].dispatched + 128
              && r[k + 1].d == Handing(r[k + 1].dispatched - r[k].dispatched)
    ensures steps[k].TakeTurn? && r[k].left > 0 && !r[k].f.paused && !r[k].f.stopped && r[k].dispatched < r[k].f.due ==>
              r[k + 1].dispatched == r[k].dispatched + if r[k].left < 128 then r[k].left else 128
    ensures steps[k].TakeTurn? && (r[k].f.stopped || r[k].left == 0) ==> r[k + 1].d.Finished?
  {
    hide Sum, Without, Landed, LookedUp;
    if k > 0 { SendsInTurn(r, steps, ids, k - 1); }
  }
}
