/**
 When a client's set may answer for the server: in every run a set is authoritative exactly when the
 load of this process ended with something to trust, and it then stands for that.
 */
module IndexTrust {
  import opened Prefixes
  import opened Gbci
  import opened IndexForms
  import opened KeySet
  import opened AddLog
  import opened ClientBlobs
  import opened IndexClient
  import opened IndexSystem
  import opened IndexRuns

  /**
   The event ends a load of process n with a set to trust: the server sent or confirmed it, another
   process fetched it, or the copy on disk is young and the server could not be asked for more.
   */
  ghost predicate Confirms(s: Sys, e: Event, n: nat) {
    && e.Act? && e.n == n && n in s.procs
    && match e.a
       case FullReply(_) => true
       case NotModified(_) => true
       case OtherRefresh => true
       case DeltaReply(_, _) => true
       case DeltaFails(young) => young
       case Begin(young) => young && s.procs[n].hand.CopyRead? && !Somewhere(s.procs[n].hand.gen)
       case _ => false
  }

  /** The process starts over. */
  predicate StartsOver(e: Event, n: nat) {
    e == Spawn(n) || e == Act(n, Crash)
  }

  /** Since it last started, the process has ended a load with a set to trust. */
  ghost predicate Confirmed(ss: seq<Sys>, es: seq<Event>, k: nat, n: nat)
    requires k <= |es| <= |ss|
  {
    exists t | 0 <= t < k :: ConfirmedAt(ss, es, t, k, n)
  }

  ghost predicate ConfirmedAt(ss: seq<Sys>, es: seq<Event>, t: nat, k: nat, n: nat)
    requires t < k <= |es| <= |ss|
  {
    Confirms(ss[t], es[t], n) && forall u | t < u < k :: !StartsOver(es[u], n)
  }

  lemma {:induction false} ConfirmedBefore(ss: seq<Sys>, es: seq<Event>, k: nat, n: nat)
    requires k < |es| <= |ss| && Confirmed(ss, es, k + 1, n)
    ensures Confirms(ss[k], es[k], n) || (Confirmed(ss, es, k, n) && !StartsOver(es[k], n))
  {
    hide Confirms;
    var t :| 0 <= t < k + 1 && ConfirmedAt(ss, es, t, k + 1, n);
    if t < k { assert ConfirmedAt(ss, es, t, k, n); }
  }

  /** One more event. */
  lemma {:induction false} ConfirmedNext(ss: seq<Sys>, es: seq<Event>, k: nat, n: nat)
    requires k < |es| <= |ss|
    ensures Confirmed(ss, es, k + 1, n) <==>
            Confirms(ss[k], es[k], n) || (Confirmed(ss, es, k, n) && !StartsOver(es[k], n))
  {
    hide Confirms;
    if Confirmed(ss, es, k + 1, n) { ConfirmedBefore(ss, es, k, n); }
    if Confirms(ss[k], es[k], n) {
      assert ConfirmedAt(ss, es, k, k + 1, n);
    } else if Confirmed(ss, es, k, n) && !StartsOver(es[k], n) {
      var t :| 0 <= t < k && ConfirmedAt(ss, es, t, k, n);
      assert ConfirmedAt(ss, es, t, k + 1, n);
    }
  }

  /** What the flags of a client say of whether its load is confirmed. */
  ghost predicate Flags(c: Client, confirmed: bool) {
    match c.phase
    case NotLoaded => !confirmed && !c.authoritative
    case Loading(_, _) => !confirmed && !c.authoritative
    case Arrived(_, outcome, yes) => yes == confirmed && !c.authoritative && (outcome.Nothing? ==> !yes)
    case Loaded => c.authoritative == confirmed
  }

  /** Every action keeps the flags right. */
  lemma {:induction false} FlagsKeep(sha: Sha, s: Sys, n: nat, a: Action, confirmed: bool)
    requires n in s.procs && Enabled(sha, s, s.procs[n], a) && Shaped(sha, s.procs[n]) && Flags(s.procs[n].client, confirmed)
    ensures Flags(After(sha, s, s.procs[n], a).client, Confirms(s, Act(n, a), n) || (confirmed && !a.Crash?))
  {
    hide Accepted, KeysOf, LongEnough, ETag, DeltaBlob, Persist, Replayed, View.PlusAll, ReadGen, ServedAt, MarshalView;
    hide KeyAt, Served, Answers;
  }

  /** In every run the flags of every client say whether its load is confirmed. */
  lemma {:induction false} FlagsRight(sha: Sha, cfg: Config, ss: seq<Sys>, es: seq<Event>, k: nat, n: nat)
    requires SysRun(sha, cfg, ss, es) && k < |ss| && n in ss[k].procs
    ensures Flags(ss[k].procs[n].client, Confirmed(ss, es, k, n))
  {
    hide Confirmed, Confirms, Flags, After, BlobsOf, DiskAfter, Enabled, Shaped, Run;
    var m := k - 1;
    assert k > 0 by { NoneAtStart(sha, cfg, ss, es); }
    assert Next(sha, cfg, ss[m], es[m], ss[k]);
    ConfirmedNext(ss, es, m, n);
    if n in ss[m].procs {
      FlagsRight(sha, cfg, ss, es, m, n);
      if es[m].Act? && es[m].n == n { FlagsKeep(sha, ss[m], n, es[m].a, Confirmed(ss, es, m, n)); }
      NotConfirming(ss[m], es[m], n);
    } else {
      NewFlags(ss[m], es[m], n);
    }
  }

  lemma NoneAtStart(sha: Sha, cfg: Config, ss: seq<Sys>, es: seq<Event>)
    requires SysRun(sha, cfg, ss, es)
    ensures |ss| > 0 && ss[0].procs == map[]
  {
  }

  lemma NotConfirming(s: Sys, e: Event, n: nat)
    ensures !(e.Act? && e.n == n) ==> !Confirms(s, e, n)
  {
  }

  lemma NewFlags(s: Sys, e: Event, n: nat)
    requires n !in s.procs
    ensures !Confirms(s, e, n) && Flags(NEW_PROC.client, false)
  {
  }

  /**
   In every run a client's set is authoritative exactly when its load is over and, since the process
   started, the server sent or confirmed it, another process fetched it, or it is a young copy and the
   server could not say what was added.
   */
  lemma {:induction false} AuthoritativeIff(sha: Sha, cfg: Config, ss: seq<Sys>, es: seq<Event>, k: nat, n: nat)
    requires SysRun(sha, cfg, ss, es) && k < |ss| && n in ss[k].procs
    ensures ss[k].procs[n].client.authoritative <==> ss[k].procs[n].client.phase.Loaded? && Confirmed(ss, es, k, n)
  {
    hide SysRun, Confirmed;
    RunHasLength(sha, cfg, ss, es);
    FlagsRight(sha, cfg, ss, es, k, n);
  }

  lemma RunHasLength(sha: Sha, cfg: Config, ss: seq<Sys>, es: seq<Event>)
    requires SysRun(sha, cfg, ss, es)
    ensures |ss| == |es| + 1
  {
  }

  /** A load that failed or was cancelled leaves its process unauthoritative for as long as it runs. */
  lemma {:induction false} FailedLoadProbes(sha: Sha, cfg: Config, ss: seq<Sys>, es: seq<Event>, t: nat, k: nat, n: nat)
    requires SysRun(sha, cfg, ss, es) && t < k < |ss| && n in ss[k].procs
    requires es[t] == Act(n, LoadFails) || es[t] == Act(n, LoadCancelled)
    requires forall u | t < u < k :: !StartsOver(es[u], n)
    ensures Ended(ss[k].procs[n].client)
    decreases k
  {
    hide After, BlobsOf, DiskAfter, Enabled, Shaped, Run, Flags, Confirmed, Ended;
    var m := k - 1;
    assert Next(sha, cfg, ss[m], es[m], ss[k]);
    if m == t {
      FlagsRight(sha, cfg, ss, es, m, n);
      FailEnds(sha, ss[m], ss[m].procs[n], es[m].a, Confirmed(ss, es, m, n));
    } else {
      FailedLoadProbes(sha, cfg, ss, es, t, m, n);
      if es[m].Act? && es[m].n == n { EndedKeeps(sha, ss[m], ss[m].procs[n], es[m].a); }
    }
  }

  /** The load is over, with nothing to trust. */
  ghost predicate Ended(c: Client) {
    (c.phase.Loaded? || (c.phase.Arrived? && !c.phase.confirmed)) && !c.authoritative
  }

  lemma {:induction false} FailEnds(sha: Sha, s: Sys, p: Proc, a: Action, confirmed: bool)
    requires Enabled(sha, s, p, a) && Shaped(sha, p) && (a.LoadFails? || a.LoadCancelled?) && Flags(p.client, confirmed)
    ensures Ended(After(sha, s, p, a).client)
  {
    hide Accepted, LongEnough;
  }

  lemma {:induction false} EndedKeeps(sha: Sha, s: Sys, p: Proc, a: Action)
    requires Enabled(sha, s, p, a) && Shaped(sha, p) && Ended(p.client) && !a.Crash?
    ensures Ended(After(sha, s, p, a).client)
  {
    hide Accepted, KeysOf, LongEnough, ETag, DeltaBlob, Persist, Replayed, View.PlusAll, ReadGen, ServedAt, MarshalView;
    hide KeyAt, Served, Answers;
  }
}
