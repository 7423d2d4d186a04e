/**
 What becomes of a client in a run: which event its position comes from, that what it claims is held
 and what it drops is gone, and that one delta brings it up to the server.
 */
module IndexMoves {
  import opened Options
  import opened Sorted
  import opened Prefixes
  import opened Gbci
  import opened IndexForms
  import opened KeySet
  import opened AddLog
  import opened ClientBlobs
  import opened IndexClient
  import opened IndexSystem
  import opened IndexRuns
  import opened IndexTrust

  // Where a position comes from.

  /** The position that an event gives process n, if it gives one. */
  ghost function Named(s: Sys, e: Event, n: nat): Option<Gen> {
    if StartsOver(e, n) then Some(Gen(0, 0))
    else if !e.Act? || e.n != n || n !in s.procs then None
    else match e.a
         case FullReply(j) => if ServedAt(s, j) then Some(Sent(Answer(s, j).1)) else None
         case NotModified(j) => if ServedAt(s, j) then Some(Sent(Answer(s, j).1)) else None
         case DeltaReply(j, _) => if j < |s.r| then Some(Sent(s.r[j].Position())) else None
         case LiveReply(j, _) => if j < |s.r| then Some(Sent(s.r[j].Position())) else None
         case OtherRefresh => if s.procs[n].hand.CopyRead? then Some(s.procs[n].hand.gen) else None
         case LiveEnds => Some(Gen(0, 0))
         case _ => None
  }

  /** A position as a reply carries it: an epoch of zero is none. */
  ghost function Sent(g: Gen): Gen {
    if g.epoch == 0 then Gen(0, 0) else g
  }

  /** The last position that the first k events gave process n. */
  ghost function LastNamed(ss: seq<Sys>, es: seq<Event>, k: nat, n: nat): Gen
    requires k <= |es| <= |ss|
  {
    if k == 0 then Gen(0, 0) else
    match Named(ss[k - 1], es[k - 1], n)
    case Some(g) => g
    case None => LastNamed(ss, es, k - 1, n)
  }

  lemma {:induction false} ActionNames(sha: Sha, s: Sys, n: nat, a: Action)
    requires n in s.procs && Enabled(sha, s, s.procs[n], a) && Shaped(sha, s.procs[n])
    ensures After(sha, s, s.procs[n], a).client.liveGen ==
            match Named(s, Act(n, a), n) case Some(g) => g case None => s.procs[n].client.liveGen
  {
    hide Accepted, KeysOf, LongEnough, ETag, DeltaBlob, Persist, Replayed, View.PlusAll, ReadGen, ServedAt, MarshalView;
    hide KeyAt, Served, Answers, Answer;
  }

  /** In every run a client's position is the last one that a reply or a refresh named, unless the server took it back. */
  lemma {:induction false} PositionIs(sha: Sha, cfg: Config, ss: seq<Sys>, es: seq<Event>, k: nat, n: nat)
    requires SysRun(sha, cfg, ss, es) && k < |ss| && n in ss[k].procs
    ensures ss[k].procs[n].client.liveGen == LastNamed(ss, es, k, n)
  {
    hide After, BlobsOf, DiskAfter, Enabled, Shaped, Run, Named;
    assert k > 0 by { NoneAtStart(sha, cfg, ss, es); }
    var m := k - 1;
    assert Next(sha, cfg, ss[m], es[m], ss[k]);
    NamesOwn(ss[m], es[m], n);
    if n in ss[m].procs {
      PositionIs(sha, cfg, ss, es, m, n);
      if es[m].Act? && es[m].n == n { ActionNames(sha, ss[m], n, es[m].a); }
    }
  }

  lemma NamesOwn(s: Sys, e: Event, n: nat)
    ensures e == Spawn(n) ==> Named(s, e, n) == Some(NOWHERE)
    ensures e != Spawn(n) && !(e.Act? && e.n == n) ==> Named(s, e, n).None?
  {
  }

  /**
   A lookup that misses unasked, in every run: since the process started its load ended with a set to
   trust; and if the client has a position, it is the last one named, and the server did not advertise
   the hash there, unless the client dropped one with the same kept prefix.
   */
  lemma {:induction false} UnaskedMissIsSound(sha: Sha, cfg: Config, ss: seq<Sys>, es: seq<Event>, k: nat, n: nat, h: Hash)
    requires SysRun(sha, cfg, ss, es) && k < |ss| && Fits(ss[k].r) && NoCollision(sha, ss[k].blobs) && n in ss[k].procs
    requires ss[k].procs[n].client.authoritative && !ss[k].procs[n].client.keys.Has(h)
    ensures |ss| == |es| + 1 && Confirmed(ss, es, k, n)
    ensures var c := ss[k].procs[n].client;
            && c.liveGen == LastNamed(ss, es, k, n)
            && (c.liveGen.epoch != 0 ==>
                  forall i | 0 <= i < |ss[k].r| && ss[k].r[i].Position() == c.liveGen && h in ss[k].r[i].Advertised() ::
                    exists d: Hash | d in c.dropped :: KeyAt(d, c.keys.shift) == KeyAt(h, c.keys.shift))
  {
    hide SysRun, Fits, NoCollision, Confirmed, LastNamed, KeyAt;
    RunHasLength(sha, cfg, ss, es);
    AuthoritativeIff(sha, cfg, ss, es, k, n);
    PositionIs(sha, cfg, ss, es, k, n);
    var c := ss[k].procs[n].client;
    if c.liveGen.epoch != 0 {
      forall i | 0 <= i < |ss[k].r| && ss[k].r[i].Position() == c.liveGen && h in ss[k].r[i].Advertised()
        ensures exists d: Hash | d in c.dropped :: KeyAt(d, c.keys.shift) == KeyAt(h, c.keys.shift)
      {
        MissIsSound(sha, cfg, ss, es, k, n, i, h);
      }
    }
  }

  // What is claimed is held, and what is dropped is gone.

  /** No other hash this client dropped has the same kept prefix. */
  ghost predicate Apart(c: Client, h: Hash) {
    forall d: Hash | d in c.dropped && KeyAt(d, c.keys.shift) == KeyAt(h, c.keys.shift) :: d == h
  }

  ghost predicate HoldsClaim(c: Client, h: Hash) {
    && c.keys.Has(h) && !c.phase.NotLoaded?
    && (c.journal.Journal? ==> h in c.journal.added && h !in c.journal.dropped)
  }

  lemma {:induction false} ReplayHolds(v: View, j: Journal, c: Client, h: Hash)
    requires j.Journal? && h in j.added && h !in j.dropped && j.dropped <= c.dropped
    requires Apart(c, h) && c.keys.shift == v.shift
    ensures Replayed(v, j).Has(h)
  {
    hide KeyAt;
    assert KeyAt(h, v.shift) in KeysAt(j.added, v.shift);
    forall d: Hash | d in j.dropped
      ensures KeyAt(d, v.shift) != KeyAt(h, v.shift)
    {
    }
  }

  lemma {:induction false} HoldsKeep(sha: Sha, s: Sys, p: Proc, a: Action, h: Hash)
    requires Enabled(sha, s, p, a) && Shaped(sha, p) && Coherent(p.client) && HoldsClaim(p.client, h)
    requires a != Crash && a != DropKey(h) && Apart(After(sha, s, p, a).client, h)
    ensures HoldsClaim(After(sha, s, p, a).client, h)
  {
    hide Accepted, KeysOf, LongEnough, ETag, DeltaBlob, Persist, Replayed, View.PlusAll, ReadGen, ServedAt, MarshalView;
    hide KeyAt, Served, Answers, Answer, Stands, View.Masks;
    var c, c' := p.client, After(sha, s, p, a).client;
    match a {
      case DeltaReply(j, form) => JoinKeeps(c.keys, DeltaView(sha, s, c.phase.from, j, form), h);
      case LiveReply(j, form) => JoinKeeps(c.keys, DeltaView(sha, s, c.liveGen, j, form), h);
      case AdoptNow =>
        if c.phase.outcome.NewSet? {
          ReplayShift(c.phase.outcome.keys, c.journal);
          ReplayHolds(c.phase.outcome.keys, c.journal, c', h);
        }
      case _ =>
    }
  }

  lemma ReplayShift(v: View, j: Journal)
    requires j.Journal?
    ensures Replayed(v, j).shift == v.shift
  {
  }

  /**
   A claim is held, through loads, deltas and adoption, until the hash is dropped, as long as no
   other hash that the client dropped has the same kept prefix.
   */
  lemma {:induction false} ClaimIsHeld(sha: Sha, cfg: Config, ss: seq<Sys>, es: seq<Event>, t: nat, k: nat, n: nat, h: Hash)
    requires SysRun(sha, cfg, ss, es) && t < k < |ss| && Fits(ss[k].r) && NoCollision(sha, ss[k].blobs)
    requires es[t] == Act(n, ClaimKey(h)) && n in ss[t].procs
    requires forall u | t < u < k :: !StartsOver(es[u], n) && es[u] != Act(n, DropKey(h))
    requires forall u | t < u <= k :: n in ss[u].procs && Apart(ss[u].procs[n].client, h)
    ensures ss[k].procs[n].client.keys.Has(h) && HoldsClaim(ss[k].procs[n].client, h)
    decreases k
  {
    hide After, BlobsOf, DiskAfter, Enabled, Shaped, Run, Apart, HoldsClaim, NoCollision, Fits, TrueHand, TrueLoad;
    hide Coherent, TrueDisk, TrueWrite;
    var m := k - 1;
    assert Next(sha, cfg, ss[m], es[m], ss[k]);
    NextGrows(sha, cfg, ss[m], es[m], ss[k]);
    FitsLess(ss[m].r, ss[k].r);
    NoCollisionLess(sha, ss[m].blobs, ss[k].blobs);
    RunKeeps(sha, cfg, ss, es, m);
    if m == t {
      ClaimHolds(sha, ss[m], ss[m].procs[n], h);
    } else {
      ClaimIsHeld(sha, cfg, ss, es, t, m, n, h);
      if es[m].Act? && es[m].n == n { HoldsKeep(sha, ss[m], ss[m].procs[n], es[m].a, h); }
    }
    HoldsHas(ss[k].procs[n].client, h);
  }

  lemma HoldsHas(c: Client, h: Hash)
    requires HoldsClaim(c, h)
    ensures c.keys.Has(h)
  {
  }

  lemma ClaimHolds(sha: Sha, s: Sys, p: Proc, h: Hash)
    requires Enabled(sha, s, p, ClaimKey(h)) && Shaped(sha, p)
    ensures HoldsClaim(After(sha, s, p, ClaimKey(h)).client, h)
  {
    hide KeyAt;
  }

  ghost predicate HoldsDrop(c: Client, h: Hash) {
    !c.keys.Has(h) && !c.phase.NotLoaded? && (c.journal.Journal? ==> h in c.journal.dropped)
  }

  lemma {:induction false} ReplayDrops(v: View, j: Journal, h: Hash)
    requires j.Journal? && h in j.dropped
    ensures !Replayed(v, j).Has(h)
  {
    hide KeyAt;
    assert KeyAt(h, v.shift) in KeysAt(j.dropped, v.shift);
  }

  /** The action brings in no key that h has: no delta, and no claim with the same kept prefix. */
  ghost predicate BringsNone(c: Client, a: Action, h: Hash) {
    && !a.DeltaReply? && !a.LiveReply?
    && (a.ClaimKey? ==> KeyAt(a.h, c.keys.shift) != KeyAt(h, c.keys.shift))
  }

  lemma {:induction false} DropKeeps(sha: Sha, s: Sys, p: Proc, a: Action, h: Hash)
    requires Enabled(sha, s, p, a) && Shaped(sha, p) && a != Crash
    requires a == DropKey(h) || (HoldsDrop(p.client, h) && BringsNone(p.client, a, h))
    ensures HoldsDrop(After(sha, s, p, a).client, h)
  {
    hide Accepted, KeysOf, LongEnough, ETag, DeltaBlob, Persist, Replayed, ReadGen, ServedAt, MarshalView;
    hide KeyAt, Served, Answers, Answer, Stands, View.Masks;
    if a.AdoptNow? && p.client.phase.outcome.NewSet? { ReplayDrops(p.client.phase.outcome.keys, p.client.journal, h); }
  }

  /**
   What was dropped is gone, through loads and adoption, until a delta or a claim with the same
   kept prefix brings its key back.
   */
  lemma {:induction false} DropIsGone(sha: Sha, cfg: Config, ss: seq<Sys>, es: seq<Event>, t: nat, k: nat, n: nat, h: Hash)
    requires SysRun(sha, cfg, ss, es) && t < k < |ss| && es[t] == Act(n, DropKey(h))
    requires forall u | t <= u <= k :: n in ss[u].procs
    requires forall u | t < u < k ::
               !StartsOver(es[u], n) && (es[u].Act? && es[u].n == n ==> BringsNone(ss[u].procs[n].client, es[u].a, h))
    ensures !ss[k].procs[n].client.keys.Has(h) && HoldsDrop(ss[k].procs[n].client, h)
    decreases k
  {
    hide After, BlobsOf, DiskAfter, Enabled, Shaped, Run, HoldsDrop, BringsNone;
    var m := k - 1;
    assert Next(sha, cfg, ss[m], es[m], ss[k]);
    if m > t { DropIsGone(sha, cfg, ss, es, t, m, n, h); }
    if es[m].Act? && es[m].n == n { DropKeeps(sha, ss[m], ss[m].procs[n], es[m].a, h); }
    DropHas(ss[k].procs[n].client, h);
  }

  lemma DropHas(c: Client, h: Hash)
    requires HoldsDrop(c, h)
    ensures !c.keys.Has(h)
  {
  }

  // One delta is enough.

  lemma {:induction false} DeltaIsAccepted(sha: Sha, s: Sys, from: Gen, j: nat, form: Form)
    requires Fits(s.r) && j < |s.r| && Served(form) && Answers(s.r[j], from)
    ensures Accepted(sha, DeltaBlob(sha, s.r[j], from, form))
  {
    hide Serialize, ParseBlob, KeysAt;
    var tail := s.r[j].added[from.pos..];
    ElementsSize(tail);
    Decodes(sha, Elements(tail), form);
  }

  lemma FlushHas(sha: Sha, s: Sys, p: Proc, a: Action)
    requires Enabled(sha, s, p, a)
    ensures a.Flush? ==> p.writes != []
  {
    hide Accepted, LongEnough, ServedAt, DeltaAt;
  }

  /** Process n does one thing more. */
  lemma {:induction false} DoNext(sha: Sha, cfg: Config, ss: seq<Sys>, es: seq<Event>, n: nat, a: Action)
    returns (ss': seq<Sys>, es': seq<Event>)
    requires SysRun(sha, cfg, ss, es) && |ss| > 0 && n in ss[|ss| - 1].procs
    requires Enabled(sha, ss[|ss| - 1], ss[|ss| - 1].procs[n], a) && Shaped(sha, ss[|ss| - 1].procs[n])
    ensures SysRun(sha, cfg, ss', es') && |ss'| == |ss| + 1 && ss' == ss + [ss'[|ss|]] && es' == es + [Act(n, a)]
    ensures a.Flush? ==> ss[|ss| - 1].procs[n].writes != []
    ensures var s, s' := ss[|ss| - 1], ss'[|ss|];
            && s'.r == s.r && s'.steps == s.steps && s'.disk == DiskAfter(s, s.procs[n], a)
            && s'.blobs == s.blobs + BlobsOf(sha, s, s.procs[n], a)
            && n in s'.procs && s'.procs[n] == After(sha, s, s.procs[n], a)
  {
    hide Starts, After, BlobsOf, DiskAfter, Enabled, Shaped, Run;
    var s := ss[|ss| - 1];
    var p := s.procs[n];
    FlushHas(sha, s, p, a);
    var s' := s.(disk := DiskAfter(s, p, a), blobs := s.blobs + BlobsOf(sha, s, p, a),
                 procs := s.procs[n := After(sha, s, p, a)]);
    assert Next(sha, cfg, s, Act(n, a), s');
    Extend(sha, cfg, ss, es, Act(n, a), s');
    ss', es' := ss + [s'], es + [Act(n, a)];
  }

  /**
   From any state of any run: an authoritative client at a position of the server's current epoch
   can ask, and the answer brings it to the server's current position.
   */
  lemma {:induction false} LiveDeltaCatchesUp(sha: Sha, cfg: Config, ss: seq<Sys>, es: seq<Event>, n: nat, form: Form)
    returns (ss': seq<Sys>, es': seq<Event>)
    requires SysRun(sha, cfg, ss, es) && Fits(ss[|ss| - 1].r) && NoCollision(sha, ss[|ss| - 1].blobs) && Served(form)
    requires n in ss[|ss| - 1].procs && |ss[|ss| - 1].r| > 0
    requires var s := ss[|ss| - 1]; var c := s.procs[n].client;
             && c.phase.Loaded? && c.authoritative && !c.asking && c.liveGen.epoch != 0
             && c.liveGen.epoch == s.r[|s.r| - 1].epoch && c.liveGen.pos <= |s.r[|s.r| - 1].added|
    ensures SysRun(sha, cfg, ss', es') && |ss'| > 0 && es <= es' && ss'[|ss'| - 1].r == ss[|ss| - 1].r
    ensures var s' := ss'[|ss'| - 1];
            && n in s'.procs && s'.procs[n].client.phase.Loaded? && s'.procs[n].client.authoritative
            && s'.procs[n].client.liveGen == s'.r[|s'.r| - 1].Position()
  {
    hide Accepted, KeysOf, LongEnough, DeltaBlob, View.PlusAll, Served, NoCollision, Fits, SysRun, Shaped, Coherent;
    hide Run, TrueDisk, TrueHand, TrueLoad, TrueWrite;
    assert |ss| > 0 by { NotEmpty(sha, cfg, ss, es); }
    RunKeeps(sha, cfg, ss, es, |ss| - 1);
    var s := ss[|ss| - 1];
    var j := |s.r| - 1;
    DeltaIsAccepted(sha, s, s.procs[n].client.liveGen, j, form);
    LoadedIsOpen(s.procs[n].client);
    ss', es' := DoNext(sha, cfg, ss, es, n, Ask);
    AskShapes(sha, s.procs[n]);
    ss', es' := DoNext(sha, cfg, ss', es', n, LiveReply(j, form));
  }

  lemma LoadedIsOpen(c: Client)
    requires Coherent(c) && c.phase.Loaded?
    ensures c.journal.NoJournal?
  {
  }

  lemma AskShapes(sha: Sha, p: Proc)
    requires Shaped(sha, p)
    ensures Shaped(sha, p.(client := p.client.(asking := true)))
  {
    hide Accepted, LongEnough;
  }
}
