/**
 Who is admitted and who is refused, in every run: a slot that is free is taken, a request is turned
 away only by a full line or by the end of its own wait, and slots go round in order.
 */
module AdmissionRuns {
  import opened Admission

  /** The requests that wait. */
  ghost function Waiters(s: State): set<nat> {
    set id | id in s.reqs && Waits(s, id)
  }

  lemma {:induction false} SizeOf(line: seq<nat>, all: set<nat>)
    requires (forall x :: x in line <==> x in all) && forall i, j | 0 <= i < j < |line| :: line[i] != line[j]
    ensures |line| == |all|
    decreases |line|
  {
    if line == [] {
      assert all == {};
    } else {
      var n := |line| - 1;
      assert line[n] in all;
      forall x
        ensures x in line[..n] <==> x in all - {line[n]}
      {
        if x in all - {line[n]} { assert x in line; }
      }
      SizeOf(line[..n], all - {line[n]});
    }
  }

  ghost function WaitersOf(s: State, ahead: bool): set<nat> {
    set id | id in s.reqs && Waits(s, id) && s.reqs[id].ahead == ahead
  }

  lemma {:induction false} LineSize(s: State, ahead: bool)
    requires LineHolds(s, ahead)
    ensures |s.q.Line(ahead)| == |WaitersOf(s, ahead)|
  {
    SizeOf(s.q.Line(ahead), WaitersOf(s, ahead));
  }

  /** The two lines together are the requests that wait. */
  lemma {:induction false} LinesAreWaiters(s: State, slots: nat, maxQueued: nat)
    requires Inv(s, slots, maxQueued)
    ensures s.q.Length() == |Waiters(s)|
  {
    hide InOrder, Out, Lists;
    LineSize(s, true);
    LineSize(s, false);
    assert WaitersOf(s, true) + WaitersOf(s, false) == Waiters(s) && WaitersOf(s, true) !! WaitersOf(s, false);
  }

  /**
   In every run a request is refused exactly when it finds no slot free and as many waiting as may,
   or when its own wait has ended with no slot for it, or with one and its client gone.
   */
  lemma {:induction false} RefusedIff(r: seq<State>, steps: seq<Step>, slots: nat, maxQueued: nat, k: nat, id: nat)
    requires Run(r, steps, slots, maxQueued) && k < |steps| && id in r[k].reqs && !r[k].reqs[id].Refused?
    ensures id in r[k + 1].reqs
    ensures r[k + 1].reqs[id].Refused? <==>
            || (steps[k] == Enter(id) && |Out(r[k])| == slots && |Waiters(r[k])| >= maxQueued)
            || (steps[k] == Leave(id) && (id !in Out(r[k]) || id in r[k].gone))
  {
    hide Inv, Out, Waiters, Released, Joined, Left;
    RunKeeps(r, steps, slots, maxQueued, k);
    SlotsConserved(r, steps, slots, maxQueued, k);
    LinesAreWaiters(r[k], slots, maxQueued);
    HasIn(r[k]);
  }

  /**
   In every run a request gets its slot exactly when it tries while one is free, or when it was
   granted one and looks, before its client has gone if its wait had ended.
   */
  lemma {:induction false} AdmittedIff(r: seq<State>, steps: seq<Step>, slots: nat, maxQueued: nat, k: nat, id: nat)
    requires Run(r, steps, slots, maxQueued) && k < |steps| && id in r[k].reqs && !r[k].reqs[id].Holding?
    ensures id in r[k + 1].reqs
    ensures r[k + 1].reqs[id].Holding? <==>
            || ((steps[k] == Try(id) || steps[k] == Enter(id)) && |Out(r[k])| < slots)
            || steps[k] == Wake(id)
            || (steps[k] == Leave(id) && id in Out(r[k]) && id !in r[k].gone)
  {
    hide Inv, Out, Released, Joined, Left;
    RunKeeps(r, steps, slots, maxQueued, k);
    SlotsConserved(r, steps, slots, maxQueued, k);
    HasIn(r[k]);
  }

  /** The step gives a slot up: its holder gives it back for the first time, or it was granted to a client that has gone. */
  ghost predicate GivesUp(s: State, step: Step) {
    && step.id in Out(s)
    && (step.GiveBack? || step.Finish? || (step.Leave? && step.id in s.gone))
  }

  /**
   In every run a slot is granted exactly when one is given up while somebody waits. It goes to the
   demand waiter that joined first, and to the look-ahead waiter that joined first if none of those
   waits.
   */
  lemma {:induction false} GrantIsEarliest(r: seq<State>, steps: seq<Step>, slots: nat, maxQueued: nat, k: nat, w: nat)
    returns (g: nat)
    requires Run(r, steps, slots, maxQueued) && k < |steps| && GivesUp(r[k], steps[k]) && Waits(r[k], w)
    ensures Waits(r[k], g) && r[k + 1].q.granted == r[k].q.granted + {g} && Has(r[k + 1], g)
    ensures w != g ==>
              || (!r[k].reqs[g].ahead && r[k].reqs[w].ahead)
              || (r[k].reqs[g].ahead == r[k].reqs[w].ahead && r[k].reqs[g].ticket < r[k].reqs[w].ticket)
  {
    hide Inv, Released, Joined, Left;
    EarliestFirst(r, steps, slots, maxQueued, k, w);
    HasIn(r[k]);
    g := r[k].q.Next();
  }

  /** And no other step grants one. */
  lemma {:induction false} NoOtherGrant(r: seq<State>, steps: seq<Step>, slots: nat, maxQueued: nat, k: nat)
    requires Run(r, steps, slots, maxQueued) && k < |steps| && !GivesUp(r[k], steps[k])
    ensures r[k + 1].q.granted == r[k].q.granted
  {
    hide Inv, Out, Without;
    RunKeeps(r, steps, slots, maxQueued, k);
    HasIn(r[k]);
  }

  /** A ticket is the place in which its holder joined: the first k steps gave out those below r[k].tickets, in order. */
  lemma {:induction false} TicketsInOrder(r: seq<State>, steps: seq<Step>, slots: nat, maxQueued: nat, k: nat, id: nat)
    requires Run(r, steps, slots, maxQueued) && k < |r| && id in r[k].reqs && r[k].reqs[id].InLine()
    ensures exists j | 0 <= j < k ::
              steps[j] == Enter(id) && r[j].tickets == r[k].reqs[id].ticket < r[j + 1].tickets <= r[k].tickets
  {
    hide Released, Joined, Left;
    var m := k - 1;
    if id in r[m].reqs && r[m].reqs[id].InLine() {
      TicketsInOrder(r, steps, slots, maxQueued, m, id);
      var j :| 0 <= j < m && steps[j] == Enter(id)
        && r[j].tickets == r[m].reqs[id].ticket < r[j + 1].tickets <= r[m].tickets;
    }
  }
}
