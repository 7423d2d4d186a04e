/**
 Work slots: a free count and two waiting lines, and the requests that wait in them, give up,
 hold a slot and hand it back, over every interleaving.
 */
module Admission {

  /** What slotQueue holds. granted is every waiter handed a slot. */
  datatype Queue = Queue(free: nat, demand: seq<nat>, prefetch: seq<nat>, granted: set<nat>) {
    function Line(ahead: bool): seq<nat> { if ahead then prefetch else demand }

    function Length(): nat { |demand| + |prefetch| }

    /** The waiter a slot given back goes to. */
    function Next(): nat
      requires Length() > 0
    {
      if demand != [] then demand[0] else prefetch[0]
    }
  }

  function Without(line: seq<nat>, w: nat): (r: seq<nat>)
    ensures forall x :: x in r <==> x in line && x != w
    ensures |r| <= |line|
  {
    if line == [] then [] else if line[0] == w then Without(line[1..], w) else [line[0]] + Without(line[1..], w)
  }

  function Released(q: Queue): Queue {
    if q.demand != [] then q.(demand := q.demand[1..], granted := q.granted + {q.demand[0]})
    else if q.prefetch != [] then q.(prefetch := q.prefetch[1..], granted := q.granted + {q.prefetch[0]})
    else q.(free := q.free + 1)
  }

  function Joined(q: Queue, w: nat, ahead: bool): Queue {
    if ahead then q.(prefetch := q.prefetch + [w]) else q.(demand := q.demand + [w])
  }

  function Left(q: Queue, w: nat, ahead: bool): Queue {
    if ahead then q.(prefetch := Without(q.prefetch, w)) else q.(demand := Without(q.demand, w))
  }

  datatype Entry = Took | Full | Queued

  /** The queue as its methods change it. */
  class SlotQueue {
    var free: nat
    var demand: seq<nat>
    var prefetch: seq<nat>
    var granted: set<nat>

    function Abs(): Queue
      reads this
    {
      Queue(free, demand, prefetch, granted)
    }

    constructor (slots: nat)
      ensures Abs() == Queue(slots, [], [], {})
    {
      free, demand, prefetch, granted := slots, [], [], {};
    }

    method TryTake() returns (ok: bool)
      modifies this
      ensures ok <==> old(free) > 0
      ensures Abs() == if ok then old(Abs()).(free := old(free) - 1) else old(Abs())
    {
      if free == 0 { return false; }
      free := free - 1;
      return true;
    }

    /** take, up to where it starts to wait. */
    method Enter(w: nat, ahead: bool, maxQueued: nat) returns (e: Entry)
      modifies this
      ensures e == if old(free) > 0 then Took else if old(Abs()).Length() >= maxQueued then Full else Queued
      ensures e.Took? ==> Abs() == old(Abs()).(free := old(free) - 1)
      ensures e.Full? ==> Abs() == old(Abs())
      ensures e.Queued? ==> Abs() == Joined(old(Abs()), w, ahead)
    {
      if free > 0 {
        free := free - 1;
        return Took;
      }
      if |demand| + |prefetch| >= maxQueued { return Full; }
      if ahead { prefetch := prefetch + [w]; } else { demand := demand + [w]; }
      return Queued;
    }

    /** take, from where a wait that ended locks again. */
    method Leave(w: nat, ahead: bool, cancelled: bool) returns (ok: bool)
      modifies this
      ensures ok <==> w in old(granted) && !cancelled
      ensures Abs() == if w !in old(granted) then Left(old(Abs()), w, ahead)
                       else if cancelled then Released(old(Abs())) else old(Abs())
    {
      if w !in granted {
        if ahead { prefetch := Without(prefetch, w); } else { demand := Without(demand, w); }
        return false;
      }
      if cancelled {
        Release();
        return false;
      }
      return true;
    }

    method Release()
      modifies this
      ensures Abs() == Released(old(Abs()))
    {
      if |demand| > 0 {
        var w := demand[0];
        demand := demand[1..];
        granted := granted + {w};
        return;
      }
      if |prefetch| > 0 {
        var w := prefetch[0];
        prefetch := prefetch[1..];
        granted := granted + {w};
        return;
      }
      free := free + 1;
    }
  }

  /**
   Where a request is. once is its admission's sync.Once and returned counts the slots it gave
   back; no code reads returned, nor the ticket a waiter got when it joined its line.
   */
  datatype Req =
    | Arrived(ahead: bool)
    | Tried(ahead: bool)
    | Waiting(ahead: bool, ticket: nat)
    | Ended(ahead: bool, ticket: nat)
    | Holding(once: bool, returned: nat)
    | Refused
    | Done(returned: nat)
  {
    predicate InLine() { Waiting? || Ended? }
  }

  datatype State = State(q: Queue, reqs: map<nat, Req>, gone: set<nat>, tickets: nat)

  datatype Step =
    | Arrive(id: nat, ahead: bool)
    | Try(id: nat)
    | Enter(id: nat)
    | Wake(id: nat)
    | TimeOut(id: nat)
    | Cancel(id: nat)
    | NoticeCancel(id: nat)
    | Leave(id: nat)
    | GiveBack(id: nat)
    | Finish(id: nat)

  /** admission.release: the first call gives the slot back, later ones do nothing. */
  function Returned(s: State, id: nat): State
    requires id in s.reqs && s.reqs[id].Holding?
  {
    var r := s.reqs[id];
    if r.once then s
    else s.(q := Released(s.q), reqs := s.reqs[id := Holding(true, r.returned + 1)])
  }

  predicate Enabled(s: State, step: Step) {
    if step.Arrive? then step.id !in s.reqs else
    step.id in s.reqs &&
    var r := s.reqs[step.id];
    match step
    case Arrive(_, _) => false
    case Try(_) => r.Arrived?
    case Enter(_) => r.Tried?
    case Wake(id) => r.Waiting? && id in s.q.granted
    case TimeOut(_) => r.Waiting?
    case Cancel(_) => true
    case NoticeCancel(id) => r.Waiting? && id in s.gone
    case Leave(_) => r.Ended?
    case GiveBack(_) => r.Holding?
    case Finish(_) => r.Holding?
  }

  function Apply(s: State, step: Step, maxQueued: nat): State
    requires Enabled(s, step)
  {
    var id := step.id;
    match step
    case Arrive(_, ahead) => s.(reqs := s.reqs[id := Arrived(ahead)])
    case Try(_) =>
      if s.q.free == 0 then s.(reqs := s.reqs[id := Tried(s.reqs[id].ahead)])
      else s.(q := s.q.(free := s.q.free - 1), reqs := s.reqs[id := Holding(false, 0)])
    case Enter(_) =>
      var ahead := s.reqs[id].ahead;
      if s.q.free > 0 then s.(q := s.q.(free := s.q.free - 1), reqs := s.reqs[id := Holding(false, 0)])
      else if s.q.Length() >= maxQueued then s.(reqs := s.reqs[id := Refused])
      else s.(q := Joined(s.q, id, ahead), reqs := s.reqs[id := Waiting(ahead, s.tickets)], tickets := s.tickets + 1)
    case Wake(_) => s.(reqs := s.reqs[id := Holding(false, 0)])
    case TimeOut(_) => s.(reqs := s.reqs[id := Ended(s.reqs[id].ahead, s.reqs[id].ticket)])
    case Cancel(_) => s.(gone := s.gone + {id})
    case NoticeCancel(_) => s.(reqs := s.reqs[id := Ended(s.reqs[id].ahead, s.reqs[id].ticket)])
    case Leave(_) =>
      if id !in s.q.granted then s.(q := Left(s.q, id, s.reqs[id].ahead), reqs := s.reqs[id := Refused])
      else if id in s.gone then s.(q := Released(s.q), reqs := s.reqs[id := Refused])
      else s.(reqs := s.reqs[id := Holding(false, 0)])
    case GiveBack(_) => Returned(s, id)
    case Finish(_) =>
      var s' := Returned(s, id);
      s'.(reqs := s'.reqs[id := Done(s'.reqs[id].returned)])
  }

  /** The requests a slot is out to: they hold it, or were granted it and have not looked yet. */
  predicate Has(s: State, id: nat) {
    id in s.reqs && (if s.reqs[id].InLine() then id in s.q.granted else s.reqs[id].Holding? && !s.reqs[id].once)
  }

  ghost function Out(s: State): set<nat> {
    set id | id in s.reqs && Has(s, id)
  }

  /** A request that still waits for a slot. */
  predicate Waits(s: State, id: nat) {
    id in s.reqs && s.reqs[id].InLine() && id !in s.q.granted
  }

  function Ticket(s: State, id: nat): nat {
    if id in s.reqs && s.reqs[id].InLine() then s.reqs[id].ticket else 0
  }

  /** A line holds exactly the waiters of its class... */
  ghost predicate Lists(s: State, ahead: bool) {
    forall id :: id in s.q.Line(ahead) <==> Waits(s, id) && s.reqs[id].ahead == ahead
  }

  /** ...in the order they joined it. */
  ghost predicate InOrder(s: State, line: seq<nat>) {
    forall i, j | 0 <= i < j < |line| :: Ticket(s, line[i]) < Ticket(s, line[j])
  }

  ghost predicate LineHolds(s: State, ahead: bool) {
    Lists(s, ahead) && InOrder(s, s.q.Line(ahead))
  }

  ghost predicate ReqHolds(s: State, id: nat)
    requires id in s.reqs
  {
    match s.reqs[id]
    case Arrived(_) => id !in s.q.granted
    case Tried(_) => id !in s.q.granted
    case Waiting(_, ticket) => ticket < s.tickets
    case Ended(_, ticket) => ticket < s.tickets
    case Holding(once, returned) => returned == if once then 1 else 0
    case Refused => id in s.q.granted ==> id in s.gone
    case Done(returned) => returned == 1
  }

  ghost predicate Inv(s: State, slots: nat, maxQueued: nat) {
    && LineHolds(s, true) && LineHolds(s, false)
    && (forall id | id in s.reqs :: ReqHolds(s, id))
    && s.q.granted <= s.reqs.Keys
    && (s.q.Length() > 0 ==> s.q.free == 0)
    && s.q.Length() <= maxQueued
    && s.q.free + |Out(s)| == slots
  }

  lemma {:induction false} WithoutKeepsOrder(s: State, line: seq<nat>, w: nat)
    requires InOrder(s, line)
    ensures InOrder(s, Without(line, w))
  {
    if line != [] {
      var rest := Without(line[1..], w);
      WithoutKeepsOrder(s, line[1..], w);
      forall j | 0 <= j < |rest|
        ensures Ticket(s, line[0]) < Ticket(s, rest[j])
      {
        assert rest[j] in line[1..];
        var k :| 1 <= k < |line| && line[k] == rest[j];
      }
    }
  }

  lemma SameOrder(s: State, t: State, line: seq<nat>)
    requires InOrder(s, line) && forall x | x in line :: Ticket(t, x) == Ticket(s, x)
    ensures InOrder(t, line)
  {
    hide Ticket;
  }

  /** The first in a line is in it once, and the rest is still in order. */
  lemma HeadOnce(s: State, line: seq<nat>)
    requires InOrder(s, line) && line != []
    ensures InOrder(s, line[1..]) && line[0] !in line[1..]
  {
    hide Ticket;
    assert forall k | 1 <= k < |line| :: line[k] != line[0];
  }

  /** A slot taken from the free count. */
  lemma {:induction false} TakeKeeps(s: State, id: nat, slots: nat, maxQueued: nat)
    requires Inv(s, slots, maxQueued) && s.q.free > 0 && id in s.reqs && (s.reqs[id].Arrived? || s.reqs[id].Tried?)
    ensures Inv(s.(q := s.q.(free := s.q.free - 1), reqs := s.reqs[id := Holding(false, 0)]), slots, maxQueued)
  {
    var t := s.(q := s.q.(free := s.q.free - 1), reqs := s.reqs[id := Holding(false, 0)]);
    assert Out(t) == Out(s) + {id};
  }

  /** The slot of id goes to the next waiter, or to the free count. */
  function Passed(s: State, id: nat, r: Req): State {
    s.(q := Released(s.q), reqs := s.reqs[id := r])
  }

  lemma NextWaits(s: State)
    requires Lists(s, true) && Lists(s, false) && s.q.Length() > 0
    ensures Waits(s, s.q.Next())
  {
    hide Waits;
    assert s.q.Next() in s.q.Line(s.q.demand == []);
  }

  /** Passing a slot on takes it from one request and gives it to at most one other. */
  lemma PassedHas(s: State, id: nat, r: Req, x: nat)
    requires Has(s, id) && !r.InLine() && (r.Holding? ==> r.once) && (s.q.Length() > 0 ==> Waits(s, s.q.Next()))
    ensures Has(Passed(s, id, r), x) <==> (Has(s, x) && x != id) || (s.q.Length() > 0 && x == s.q.Next())
  {
  }

  lemma {:induction false} PassedOut(s: State, id: nat, r: Req)
    requires Has(s, id) && !r.InLine() && (r.Holding? ==> r.once) && (s.q.Length() > 0 ==> Waits(s, s.q.Next()))
    ensures |Out(Passed(s, id, r))| == |Out(s)| - if s.q.Length() > 0 then 0 else 1
  {
    var t := Passed(s, id, r);
    assert id in s.reqs && (s.q.Length() > 0 ==> !Has(s, s.q.Next()));
    forall x
      ensures Has(t, x) <==> (Has(s, x) && x != id) || (s.q.Length() > 0 && x == s.q.Next())
    {
      PassedHas(s, id, r, x);
    }
    HasIn(s);
    HasIn(t);
    hide Has, Released, Passed;
    if s.q.Length() > 0 {
      assert Out(t) == Out(s) - {id} + {s.q.Next()};
    } else {
      assert Out(t) == Out(s) - {id};
    }
  }

  lemma HasIn(s: State)
    ensures forall x :: Has(s, x) <==> x in Out(s)
  {
  }

  lemma {:induction false} PassedLists(s: State, id: nat, r: Req, ahead: bool)
    requires LineHolds(s, true) && LineHolds(s, false) && Has(s, id) && !r.InLine()
    ensures Lists(Passed(s, id, r), ahead)
  {
    hide InOrder;
    if s.q.Length() > 0 {
      var w := s.q.Next();
      var first := s.q.demand == [];
      assert w in s.q.Line(first);
      HeadOnce(s, s.q.Line(first));
      assert s.q.Line(first) == [w] + s.q.Line(first)[1..];
    }
  }

  lemma {:induction false} PassedOrder(s: State, id: nat, r: Req, ahead: bool)
    requires LineHolds(s, true) && LineHolds(s, false) && Has(s, id)
    ensures InOrder(Passed(s, id, r), Passed(s, id, r).q.Line(ahead))
  {
    hide InOrder;
    var t := Passed(s, id, r);
    var was, now := s.q.Line(ahead), t.q.Line(ahead);
    if was != now { HeadOnce(s, was); }
    assert id !in was;
    assert forall x | x in now :: x in was;
    SameOrder(s, t, now);
  }

  lemma {:induction false} GiveKeeps(s: State, id: nat, r: Req, slots: nat, maxQueued: nat)
    requires Inv(s, slots, maxQueued) && Has(s, id)
    requires r == Holding(true, 1) || r == Done(1) || (r == Refused && id in s.gone)
    ensures Inv(Passed(s, id, r), slots, maxQueued)
  {
    hide InOrder, Out;
    if s.q.Length() > 0 { NextWaits(s); }
    PassedOut(s, id, r);
    PassedLists(s, id, r, true);
    PassedLists(s, id, r, false);
    PassedOrder(s, id, r, true);
    PassedOrder(s, id, r, false);
  }

  /** A waiter joins the end of its line. */
  lemma {:induction false} JoinKeeps(s: State, id: nat, slots: nat, maxQueued: nat)
    requires Inv(s, slots, maxQueued) && id in s.reqs && s.reqs[id].Tried? && s.q.free == 0 && s.q.Length() < maxQueued
    ensures Inv(Apply(s, Enter(id), maxQueued), slots, maxQueued)
  {
    var t := Apply(s, Enter(id), maxQueued);
    assert Out(t) == Out(s);
    JoinOrder(s, id, maxQueued, true);
    JoinOrder(s, id, maxQueued, false);
    hide InOrder, Out;
    assert t.q.Length() == s.q.Length() + 1;
  }

  lemma {:induction false} JoinOrder(s: State, id: nat, maxQueued: nat, ahead: bool)
    requires LineHolds(s, ahead) && (forall x | x in s.reqs :: ReqHolds(s, x))
    requires id in s.reqs && s.reqs[id].Tried? && s.q.free == 0 && s.q.Length() < maxQueued
    ensures InOrder(Apply(s, Enter(id), maxQueued), Apply(s, Enter(id), maxQueued).q.Line(ahead))
  {
    var t := Apply(s, Enter(id), maxQueued);
    var was := s.q.Line(ahead);
    SameOrder(s, t, was);
    forall i | 0 <= i < |was|
      ensures Ticket(t, was[i]) < s.tickets
    {
      assert was[i] in was;
      assert ReqHolds(s, was[i]);
    }
  }

  /** A waiter that was granted nothing leaves its line. */
  lemma {:induction false} LeaveKeeps(s: State, id: nat, slots: nat, maxQueued: nat)
    requires Inv(s, slots, maxQueued) && id in s.reqs && s.reqs[id].Ended? && id !in s.q.granted
    ensures Inv(Apply(s, Leave(id), maxQueued), slots, maxQueued)
  {
    hide InOrder, Out;
    var t := Apply(s, Leave(id), maxQueued);
    LeaveOut(s, id, maxQueued);
    WithoutKeepsOrder(s, s.q.Line(s.reqs[id].ahead), id);
    SameOrder(s, t, t.q.Line(true));
    SameOrder(s, t, t.q.Line(false));
    assert id in s.q.Line(s.reqs[id].ahead);
  }

  lemma LeaveOut(s: State, id: nat, maxQueued: nat)
    requires id in s.reqs && s.reqs[id].Ended? && id !in s.q.granted
    ensures Out(Apply(s, Leave(id), maxQueued)) == Out(s)
  {
    hide Without;
  }

  lemma MoveOut(s: State, step: Step, maxQueued: nat)
    requires Enabled(s, step) && (step.Arrive? || step.Cancel? || step.Wake? || step.TimeOut? || step.NoticeCancel?)
    ensures Out(Apply(s, step, maxQueued)) == Out(s)
  {
  }

  /** A step that moves a request and leaves the queue alone. */
  lemma {:induction false} MoveKeeps(s: State, step: Step, slots: nat, maxQueued: nat)
    requires Inv(s, slots, maxQueued) && Enabled(s, step)
    requires step.Arrive? || step.Cancel? || step.Wake? || step.TimeOut? || step.NoticeCancel?
    ensures Inv(Apply(s, step, maxQueued), slots, maxQueued)
  {
    hide InOrder, Out;
    var t := Apply(s, step, maxQueued);
    MoveOut(s, step, maxQueued);
    SameOrder(s, t, t.q.Line(true));
    SameOrder(s, t, t.q.Line(false));
  }

  lemma {:induction false} RefuseKeeps(s: State, id: nat, r: Req, slots: nat, maxQueued: nat)
    requires Inv(s, slots, maxQueued) && id in s.reqs
    requires (s.reqs[id].Arrived? && r == Tried(s.reqs[id].ahead)) || (s.reqs[id].Tried? && r == Refused)
    ensures Inv(s.(reqs := s.reqs[id := r]), slots, maxQueued)
  {
    var t := s.(reqs := s.reqs[id := r]);
    assert Out(t) == Out(s);
    hide InOrder, Out;
    SameOrder(s, t, t.q.Line(true));
    SameOrder(s, t, t.q.Line(false));
  }

  /** A grant that raced the end of the wait is taken up. */
  lemma {:induction false} TakeUpKeeps(s: State, id: nat, slots: nat, maxQueued: nat)
    requires Inv(s, slots, maxQueued) && id in s.reqs && s.reqs[id].Ended? && id in s.q.granted
    ensures Inv(s.(reqs := s.reqs[id := Holding(false, 0)]), slots, maxQueued)
  {
    var t := s.(reqs := s.reqs[id := Holding(false, 0)]);
    assert Out(t) == Out(s);
    hide InOrder, Out;
    SameOrder(s, t, t.q.Line(true));
    SameOrder(s, t, t.q.Line(false));
  }

  lemma {:induction false} FinishKeeps(s: State, id: nat, slots: nat, maxQueued: nat)
    requires Inv(s, slots, maxQueued) && id in s.reqs && s.reqs[id] == Holding(true, 1)
    ensures Inv(s.(reqs := s.reqs[id := Done(1)]), slots, maxQueued)
  {
    var t := s.(reqs := s.reqs[id := Done(1)]);
    assert Out(t) == Out(s);
    hide InOrder, Out;
    SameOrder(s, t, t.q.Line(true));
    SameOrder(s, t, t.q.Line(false));
  }

  lemma ReqAt(s: State, id: nat, slots: nat, maxQueued: nat)
    requires Inv(s, slots, maxQueued) && id in s.reqs
    ensures ReqHolds(s, id)
  {
  }

  /** Every step, in any order, keeps the invariant. */
  lemma {:induction false} StepKeeps(s: State, step: Step, slots: nat, maxQueued: nat)
    requires Inv(s, slots, maxQueued) && Enabled(s, step)
    ensures Inv(Apply(s, step, maxQueued), slots, maxQueued)
  {
    hide Inv, Released, Joined, Left;
    var id := step.id;
    if id in s.reqs { ReqAt(s, id, slots, maxQueued); }
    match step {
      case Try(_) =>
        if s.q.free > 0 { TakeKeeps(s, id, slots, maxQueued); }
        else { RefuseKeeps(s, id, Tried(s.reqs[id].ahead), slots, maxQueued); }
      case Enter(_) =>
        if s.q.free > 0 { TakeKeeps(s, id, slots, maxQueued); }
        else if s.q.Length() >= maxQueued { RefuseKeeps(s, id, Refused, slots, maxQueued); }
        else { JoinKeeps(s, id, slots, maxQueued); }
      case Leave(_) =>
        if id !in s.q.granted { LeaveKeeps(s, id, slots, maxQueued); }
        else if id in s.gone { GiveKeeps(s, id, Refused, slots, maxQueued); }
        else { TakeUpKeeps(s, id, slots, maxQueued); }
      case GiveBack(_) =>
        if !s.reqs[id].once { GiveKeeps(s, id, Holding(true, 1), slots, maxQueued); }
      case Finish(_) =>
        if s.reqs[id].once { FinishKeeps(s, id, slots, maxQueued); }
        else {
          GiveKeeps(s, id, Done(1), slots, maxQueued);
          assert s.reqs[id := Holding(true, 1)][id := Done(1)] == s.reqs[id := Done(1)];
        }
      case _ => MoveKeeps(s, step, slots, maxQueued);
    }
  }

  ghost predicate Run(r: seq<State>, steps: seq<Step>, slots: nat, maxQueued: nat) {
    && |r| == |steps| + 1
    && r[0] == State(Queue(slots, [], [], {}), map[], {}, 0)
    && forall i | 0 <= i < |steps| :: Enabled(r[i], steps[i]) && r[i + 1] == Apply(r[i], steps[i], maxQueued)
  }

  lemma {:induction false} RunKeeps(r: seq<State>, steps: seq<Step>, slots: nat, maxQueued: nat, k: nat)
    requires Run(r, steps, slots, maxQueued) && k < |r|
    ensures Inv(r[k], slots, maxQueued)
  {
    hide Enabled, Apply;
    if k == 0 {
      assert Out(r[0]) == {};
    } else {
      RunKeeps(r, steps, slots, maxQueued, k - 1);
      StepKeeps(r[k - 1], steps[k - 1], slots, maxQueued);
    }
  }

  /**
   In every run: the free slots and those out to a request make up the slots there are; nobody
   waits while a slot is free, so a waiter always has holders ahead of it; and the lines stay
   within their bound.
   */
  lemma {:induction false} SlotsConserved(r: seq<State>, steps: seq<Step>, slots: nat, maxQueued: nat, k: nat)
    requires Run(r, steps, slots, maxQueued) && k < |r|
    ensures r[k].q.free + |Out(r[k])| == slots
    ensures r[k].q.Length() <= maxQueued
    ensures (exists id :: Waits(r[k], id)) ==> |Out(r[k])| == slots
    ensures Out(r[k]) == {} ==> r[k].q.free == slots && (slots > 0 ==> !exists id :: Waits(r[k], id))
  {
    RunKeeps(r, steps, slots, maxQueued, k);
    hide InOrder, Out, Run;
    var s := r[k];
    if id :| Waits(s, id) { assert id in s.q.Line(s.reqs[id].ahead); }
  }

  /**
   In every run: a request that got a slot and is done gave back exactly one; one that still has
   it gave back none; and one that was refused although a slot was granted to it had gone away.
   */
  lemma {:induction false} OneSlotEach(r: seq<State>, steps: seq<Step>, slots: nat, maxQueued: nat, k: nat, id: nat)
    requires Run(r, steps, slots, maxQueued) && k < |r| && id in r[k].reqs
    ensures var req := r[k].reqs[id];
            && (req.Done? ==> req.returned == 1)
            && (req.Holding? ==> req.returned == (if id in Out(r[k]) then 0 else 1))
            && (req.Refused? && id in r[k].q.granted ==> id in r[k].gone)
            && (req.Refused? || req.Done? ==> id !in Out(r[k]))
  {
    RunKeeps(r, steps, slots, maxQueued, k);
    assert ReqHolds(r[k], id);
  }

  /**
   In every run: a slot given back goes to a waiter whenever there is one, and to the demand
   waiter that joined first before any look-ahead waiter.
   */
  lemma {:induction false} EarliestFirst(r: seq<State>, steps: seq<Step>, slots: nat, maxQueued: nat, k: nat, w: nat)
    requires Run(r, steps, slots, maxQueued) && k < |r| && Waits(r[k], w)
    ensures var s := r[k]; var s' := Released(s.q);
            && s.q.Length() > 0 && s'.granted == s.q.granted + {s.q.Next()} && s'.free == s.q.free
            && Waits(s, s.q.Next())
            && (w != s.q.Next() ==>
                  || (!s.reqs[s.q.Next()].ahead && s.reqs[w].ahead)
                  || (s.reqs[s.q.Next()].ahead == s.reqs[w].ahead && s.reqs[s.q.Next()].ticket < s.reqs[w].ticket))
  {
    RunKeeps(r, steps, slots, maxQueued, k);
    hide Run, Out;
    var s := r[k];
    var ahead := s.reqs[w].ahead;
    assert w in s.q.Line(ahead);
    var n := s.q.Next();
    assert n in s.q.Line(s.q.demand == []);
    if s.reqs[n].ahead == ahead {
      var i :| 0 <= i < |s.q.Line(ahead)| && s.q.Line(ahead)[i] == w;
      assert s.q.Line(ahead)[0] == n;
    }
  }
}
