/**
 The module-fallback fetch: a judge that pauses and stops it by how much of what it brought the
 build uses, and a dispatcher that waits its turn, over every interleaving with requests that
 land and lookups the build makes.
 */
module Fallback {

  const JUDGE_AFTER := 256
  const MIN_USE := 20
  const BATCH_MAX_KEYS := 128
  const FETCH_WIDTH := 8
  const GENERATIONS := 65536

  /** What manifestFallback counts. wake numbers the channel a waiter would wait on. */
  datatype Judge = Judge(brought: set<string>, wake: nat, due: nat, landed: nat, fetched: nat, used: nat,
                         lookups: nat, pausedAt: int, paused: bool, stopped: bool)

  const NEW_JUDGE := Judge({}, 0, JUDGE_AFTER, 0, 0, 0, 0, 0, false, false)

  function Ids(arrived: seq<string>): set<string> {
    set id | id in arrived
  }

  lemma NoIds()
    ensures Ids([]) == {}
  {
  }

  lemma MoreIds(arrived: seq<string>, i: nat, was: set<string>)
    requires i < |arrived|
    ensures was + Ids(arrived[..i + 1]) == was + Ids(arrived[..i]) + {arrived[i]}
    ensures |Ids(arrived[..i + 1]) - was| ==
            |Ids(arrived[..i]) - was| + if arrived[i] in was + Ids(arrived[..i]) then 0 else 1
  {
    var now, next := Ids(arrived[..i]), Ids(arrived[..i + 1]);
    assert next == now + {arrived[i]};
    if arrived[i] in was + now {
      assert next - was == now - was;
    } else {
      assert next - was == (now - was) + {arrived[i]};
    }
  }

  function Judged(f: Judge): Judge {
    if f.used * 100 >= f.fetched * MIN_USE then f.(due := f.due * 2, paused := false, wake := f.wake + 1)
    else if f.lookups - f.pausedAt < (f.fetched + 1) / 2 then f
    else f.(paused := false, stopped := true, wake := f.wake + 1)
  }

  function Landed(f: Judge, keys: nat, arrived: seq<string>): Judge {
    var f := f.(landed := f.landed + keys, brought := f.brought + Ids(arrived),
                fetched := f.fetched + |Ids(arrived) - f.brought|);
    if f.landed >= f.due && !f.paused && !f.stopped then Judged(f.(paused := true, pausedAt := f.lookups)) else f
  }

  function LookedUp(f: Judge, id: string, local: bool): Judge {
    var f := f.(lookups := f.lookups + 1);
    var f := if local && id in f.brought then f.(brought := f.brought - {id}, used := f.used + 1) else f;
    if f.paused then Judged(f) else f
  }

  datatype Turn = Go | Stop | Wait(wake: nat)

  /** What a dispatcher that has sent `dispatched` keys is told. */
  function TurnOf(f: Judge, dispatched: nat): Turn {
    if f.stopped then Stop else if dispatched < f.due && !f.paused then Go else Wait(f.wake)
  }

  class ManifestFallback {
    var brought: set<string>
    var wake: nat
    var due: nat
    var landed: nat
    var fetched: nat
    var used: nat
    var lookups: nat
    var pausedAt: int
    var paused: bool
    var stopped: bool

    function Abs(): Judge
      reads this
    {
      Judge(brought, wake, due, landed, fetched, used, lookups, pausedAt, paused, stopped)
    }

    constructor ()
      ensures Abs() == NEW_JUDGE
    {
      brought, wake, due, landed, fetched, used := {}, 0, JUDGE_AFTER, 0, 0, 0;
      lookups, pausedAt, paused, stopped := 0, 0, false, false;
    }

    method NoteLanded(keys: nat, arrived: seq<string>)
      modifies this
      ensures Abs() == Landed(old(Abs()), keys, arrived)
    {
      hide Ids, Judged;
      landed := landed + keys;
      Bring(arrived);
      if landed >= due && !paused && !stopped {
        paused := true;
        pausedAt := lookups;
        JudgeLocked();
      }
    }

    /** Counts the entries not yet brought, each once. */
    method Bring(arrived: seq<string>)
      modifies this`brought, this`fetched
      ensures brought == old(brought) + Ids(arrived) && fetched == old(fetched) + |Ids(arrived) - old(brought)|
    {
      hide Ids;
      ghost var was := brought;
      NoIds();
      for i := 0 to |arrived|
        invariant brought == was + Ids(arrived[..i]) && fetched == old(fetched) + |Ids(arrived[..i]) - was|
      {
        var id := arrived[i];
        MoreIds(arrived, i, was);
        if id !in brought {
          brought := brought + {id};
          fetched := fetched + 1;
        }
      }
      assert arrived[..|arrived|] == arrived;
    }

    method NoteLookup(id: string, local: bool)
      modifies this
      ensures Abs() == LookedUp(old(Abs()), id, local)
    {
      lookups := lookups + 1;
      if local && id in brought {
        brought := brought - {id};
        used := used + 1;
      }
      if paused { JudgeLocked(); }
    }

    method JudgeLocked()
      modifies this
      ensures Abs() == Judged(old(Abs()))
    {
      if used * 100 >= fetched * MIN_USE {
        due := due * 2;
        paused := false;
        wake := wake + 1;
        return;
      }
      if lookups - pausedAt < (fetched + 1) / 2 { return; }
      paused := false;
      stopped := true;
      wake := wake + 1;
    }

    /** The locked section of waitTurn. */
    method MyTurn(dispatched: nat) returns (t: Turn)
      ensures t == TurnOf(Abs(), dispatched)
    {
      if stopped { return Stop; }
      if dispatched < due && !paused { return Go; }
      return Wait(wake);
    }
  }

  function Sum(parts: seq<nat>): nat {
    if parts == [] then 0 else parts[0] + Sum(parts[1..])
  }

  function Without(parts: seq<nat>, i: nat): seq<nat>
    requires i < |parts|
  {
    parts[..i] + parts[i + 1..]
  }

  /** Where the dispatcher is: between waits, blocked on a wake channel, or at the hand-over of a part. */
  datatype Dispatcher = Looping | Blocked(wake: nat) | Handing(part: nat) | Finished

  /** flights is the size of each part on the wire; left is the number of keys still to be cut. */
  datatype State = State(f: Judge, d: Dispatcher, dispatched: nat, left: nat, flights: seq<nat>, cancelled: bool)

  datatype Step =
    | TakeTurn
    | Woken
    | GiveUp
    | Hand
    | DropPart
    | Land(i: nat, arrived: seq<string>)
    | Lookup(id: string, local: bool)
    | Cancel

  predicate Enabled(s: State, step: Step) {
    match step
    case TakeTurn => s.d.Looping?
    case Woken => s.d.Blocked? && s.d.wake < s.f.wake
    case GiveUp => s.d.Blocked? && s.cancelled
    case Hand => s.d.Handing? && |s.flights| < FETCH_WIDTH
    case DropPart => s.d.Handing? && s.cancelled
    case Land(i, _) => i < |s.flights|
    case Lookup(_, _) => true
    case Cancel => true
  }

  function Apply(s: State, step: Step): State
    requires Enabled(s, step)
  {
    match step
    case TakeTurn =>
      if s.left == 0 then s.(d := Finished) else
      (match TurnOf(s.f, s.dispatched)
       case Stop => s.(d := Finished)
       case Wait(wake) => s.(d := Blocked(wake))
       case Go =>
         var part := if s.left < BATCH_MAX_KEYS then s.left else BATCH_MAX_KEYS;
         s.(d := Handing(part), dispatched := s.dispatched + part, left := s.left - part))
    case Woken => s.(d := Looping)
    case GiveUp => s.(d := Finished)
    case Hand => s.(d := Looping, flights := s.flights + [s.d.part])
    case DropPart => s.(d := Looping)
    case Land(i, arrived) => s.(f := Landed(s.f, s.flights[i], arrived), flights := Without(s.flights, i))
    case Lookup(id, local) => s.(f := LookedUp(s.f, id, local))
    case Cancel => s.(cancelled := true)
  }

  ghost predicate Counts(f: Judge) {
    f.used + |f.brought| == f.fetched
  }

  /** A pause lasts only while too little is used and the build has made too few lookups to say. */
  ghost predicate Verdict(f: Judge) {
    && (f.paused ==> !f.stopped && f.used * 100 < f.fetched * MIN_USE && 0 <= f.lookups - f.pausedAt < (f.fetched + 1) / 2)
    && (!f.paused && !f.stopped ==> f.landed < f.due)
    && f.due >= JUDGE_AFTER
  }

  function Held(d: Dispatcher): nat {
    if d.Handing? then d.part else 0
  }

  ghost predicate Flow(s: State) {
    && s.f.landed + Sum(s.flights) + Held(s.d) <= s.dispatched
    && (!s.cancelled ==> s.f.landed + Sum(s.flights) + Held(s.d) == s.dispatched)
    && s.dispatched < s.f.due + BATCH_MAX_KEYS
    && |s.flights| <= FETCH_WIDTH
  }

  /** A blocked dispatcher whose channel is still open has nothing to do yet. */
  ghost predicate NoLostWake(s: State) {
    s.d.Blocked? ==> s.d.wake <= s.f.wake && (s.d.wake == s.f.wake ==> TurnOf(s.f, s.dispatched).Wait?)
  }

  ghost predicate Inv(s: State) {
    Counts(s.f) && Verdict(s.f) && Flow(s) && NoLostWake(s)
  }

  lemma {:induction false} SumWithout(parts: seq<nat>, i: nat)
    requires i < |parts|
    ensures Sum(parts) == Sum(Without(parts, i)) + parts[i]
  {
    if i == 0 {
      assert Without(parts, 0) == parts[1..];
    } else {
      SumWithout(parts[1..], i - 1);
      assert Without(parts, i) == [parts[0]] + Without(parts[1..], i - 1);
    }
  }

  lemma {:induction false} SumSnoc(parts: seq<nat>, n: nat)
    ensures Sum(parts + [n]) == Sum(parts) + n
  {
    SumWithout(parts + [n], |parts|);
    assert Without(parts + [n], |parts|) == parts;
  }

  /** Landing keeps the judge's counts, and its verdict if no more landed than was sent. */
  lemma LandedKeeps(f: Judge, keys: nat, arrived: seq<string>)
    requires Counts(f) && Verdict(f) && f.landed + keys < f.due + BATCH_MAX_KEYS
    ensures var f' := Landed(f, keys, arrived);
            && Counts(f') && Verdict(f') && f'.landed == f.landed + keys && f'.due >= f.due && f'.wake >= f.wake
            && (f'.wake == f.wake ==> f'.due == f.due && f'.stopped == f.stopped && (f.paused ==> f'.paused))
  {
    var more := Ids(arrived) - f.brought;
    assert f.brought + Ids(arrived) == f.brought + more;
  }

  lemma LookedUpKeeps(f: Judge, id: string, local: bool)
    requires Counts(f) && Verdict(f) && f.landed < f.due + BATCH_MAX_KEYS
    ensures var f' := LookedUp(f, id, local);
            && Counts(f') && Verdict(f') && f'.landed == f.landed && f'.due >= f.due && f'.wake >= f.wake
            && (f'.wake == f.wake ==> f'.due == f.due && f'.stopped == f.stopped && (f.paused ==> f'.paused))
  {
  }

  lemma {:induction false} LandKeeps(s: State, i: nat, arrived: seq<string>)
    requires Inv(s) && i < |s.flights|
    ensures Inv(Apply(s, Land(i, arrived)))
  {
    SumWithout(s.flights, i);
    LandedKeeps(s.f, s.flights[i], arrived);
    hide Landed, Sum, Counts, Verdict;
  }

  lemma {:induction false} LookupKeeps(s: State, id: string, local: bool)
    requires Inv(s)
    ensures Inv(Apply(s, Lookup(id, local)))
  {
    LookedUpKeeps(s.f, id, local);
    hide LookedUp, Sum, Counts, Verdict;
  }

  /** Every step, in any order, keeps the invariant. */
  lemma {:induction false} StepKeeps(s: State, step: Step)
    requires Inv(s) && Enabled(s, step)
    ensures Inv(Apply(s, step))
  {
    hide Sum, Counts, Landed, LookedUp, Without;
    match step {
      case Hand => SumSnoc(s.flights, s.d.part);
      case Land(i, arrived) => LandKeeps(s, i, arrived);
      case Lookup(id, local) => LookupKeeps(s, id, local);
      case _ =>
    }
  }

  ghost predicate Run(r: seq<State>, steps: seq<Step>, ids: nat) {
    && |r| == |steps| + 1
    && r[0] == State(NEW_JUDGE, Looping, 0, ids, [], false)
    && forall k | 0 <= k < |steps| :: Enabled(r[k], steps[k]) && r[k + 1] == Apply(r[k], steps[k])
  }

  lemma {:induction false} RunKeeps(r: seq<State>, steps: seq<Step>, ids: nat, k: nat)
    requires Run(r, steps, ids) && k < |r|
    ensures Inv(r[k])
  {
    hide Apply, Enabled, Inv;
    if k == 0 {
      StartHolds(ids);
    } else {
      RunKeeps(r, steps, ids, k - 1);
      StepKeeps(r[k - 1], steps[k - 1]);
    }
  }

  lemma StartHolds(ids: nat)
    ensures Inv(State(NEW_JUDGE, Looping, 0, ids, [], false))
  {
  }

  /**
   In every run: what was fetched is what was used and what is still unused; no more has landed
   than was sent; and sending stays within one batch of the next verdict.
   */
  lemma {:induction false} FetchIsBounded(r: seq<State>, steps: seq<Step>, ids: nat, k: nat)
    requires Run(r, steps, ids) && k < |r|
    ensures r[k].f.used + |r[k].f.brought| == r[k].f.fetched
    ensures r[k].f.landed <= r[k].dispatched < r[k].f.due + BATCH_MAX_KEYS
    ensures !r[k].f.paused && !r[k].f.stopped ==> r[k].f.landed < r[k].f.due
  {
    RunKeeps(r, steps, ids, k);
  }

  /**
   No deadlock and no lost wakeup, in every run: a dispatcher blocked on a channel that is still
   open really has to wait, and unless the fetch was cancelled something will end the wait: a
   request in flight, or a pause that fewer than (fetched + 1) / 2 lookups have passed over. A
   dispatcher that cannot hand over its part has every worker busy.
   */
  lemma {:induction false} NeverStuck(r: seq<State>, steps: seq<Step>, ids: nat, k: nat)
    requires Run(r, steps, ids) && k < |r|
    ensures var s := r[k];
            && (s.d == Blocked(s.f.wake) ==> !s.f.stopped && (s.f.paused || s.dispatched >= s.f.due))
            && (s.d == Blocked(s.f.wake) && !s.cancelled ==> s.flights != [] || s.f.paused)
            && (s.f.paused ==> 0 <= s.f.lookups - s.f.pausedAt < (s.f.fetched + 1) / 2)
            && (s.d.Handing? && !Enabled(s, Hand) ==> |s.flights| == FETCH_WIDTH)
  {
    RunKeeps(r, steps, ids, k);
  }

  /** The lookups a pause has left before it is decided. */
  function Remaining(f: Judge): int {
    (f.fetched + 1) / 2 - (f.lookups - f.pausedAt)
  }

  function LookedUpAll(f: Judge, ids: seq<(string, bool)>): Judge
    decreases |ids|
  {
    if ids == [] then f else LookedUpAll(LookedUp(f, ids[0].0, ids[0].1), ids[1..])
  }

  /** Every pause is decided by the lookups it has left, whatever they look up. */
  lemma {:induction false} LookupsDecide(f: Judge, ids: seq<(string, bool)>)
    requires Verdict(f) && f.paused && |ids| >= Remaining(f)
    ensures exists n | 0 < n <= |ids| :: LookedUpAll(f, ids[..n]).wake == f.wake + 1 && !LookedUpAll(f, ids[..n]).paused
    decreases |ids|
  {
    var f' := LookedUp(f, ids[0].0, ids[0].1);
    if f'.paused {
      LookupsDecide(f', ids[1..]);
      var n :| 0 < n <= |ids[1..]| && LookedUpAll(f', ids[1..][..n]).wake == f'.wake + 1
        && !LookedUpAll(f', ids[1..][..n]).paused;
      assert ids[..n + 1][1..] == ids[1..][..n];
    } else {
      assert LookedUpAll(f, ids[..1]) == f' by { assert ids[..1][1..] == []; }
    }
  }

  /**
   In every run: a dispatcher that waits with nothing in flight is woken, unless it was cancelled,
   by the lookups its pause has left.
   */
  lemma {:induction false} QuietWaitEnds(r: seq<State>, steps: seq<Step>, ids: nat, k: nat, looked: seq<(string, bool)>)
    requires Run(r, steps, ids) && k < |r| && r[k].d == Blocked(r[k].f.wake) && r[k].flights == [] && !r[k].cancelled
    requires |looked| >= Remaining(r[k].f)
    ensures exists n | 0 < n <= |looked| :: LookedUpAll(r[k].f, looked[..n]).wake > r[k].d.wake
  {
    hide LookedUpAll;
    RunKeeps(r, steps, ids, k);
    LookupsDecide(r[k].f, looked);
    var n :| 0 < n <= |looked| && LookedUpAll(r[k].f, looked[..n]).wake == r[k].f.wake + 1;
  }

  /** The generations known are all those before some first unknown one, as writers add them in order. */
  ghost predicate InOrder(known: nat -> bool) {
    forall g, g' | 0 <= g < g' && known(g') :: known(g)
  }

  /** newestFallbackGen, on an authoritative index: doubling, then halving. */
  method NewestGen(known: nat -> bool) returns (gen: int)
    ensures gen == -1 <==> !known(0)
    ensures gen != -1 ==> 0 <= gen < GENERATIONS && known(gen) && (gen + 1 < GENERATIONS ==> !known(gen + 1))
    ensures InOrder(known) ==> forall g: nat | g < GENERATIONS :: known(g) <==> g <= gen
  {
    if !known(0) { return -1; }
    var low, high := 0, 1;
    while high < GENERATIONS && known(high)
      invariant 0 <= low < high && known(low) && low < GENERATIONS
    {
      low, high := high, high * 2;
    }
    high := if high < GENERATIONS then high else GENERATIONS;
    while high - low > 1
      invariant 0 <= low < high <= GENERATIONS && known(low) && (high < GENERATIONS ==> !known(high))
    {
      var mid := (low + high) / 2;
      if known(mid) { low := mid; } else { high := mid; }
    }
    return low;
  }
}
