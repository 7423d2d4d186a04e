/**
 What a client's set is worth when it has no position, or has lost it: in every run an authoritative
 set stands for a whole index that the server sent, that was on disk, or that it came to by deltas.
 */
module IndexGround {
  import opened Options
  import opened Words
  import opened Prefixes
  import opened Gbci
  import opened KeySet
  import opened AddLog
  import opened ClientBlobs
  import opened IndexClient
  import opened IndexSystem
  import opened IndexRuns

  ghost predicate OfBlob(sha: Sha, blobs: set<seq<byte>>, b: seq<byte>, v: View) {
    b in blobs && Accepted(sha, b) && v == KeysOf(sha, b)
  }

  /** v is a whole index: a blob of the run, or what the server advertised at some position. */
  ghost predicate WholeIndex(sha: Sha, r: seq<State>, blobs: set<seq<byte>>, v: View) {
    (exists b :: OfBlob(sha, blobs, b, v)) || exists g :: TrueView(r, g, v)
  }

  /** The client's set is v, but for what it claimed and dropped. */
  ghost predicate IsOf(c: Client, v: View) {
    v.Masks() && Stands(c.keys, v, c.claimed, c.dropped)
  }

  /** The client's set stands for a whole index; or for nothing, and then it is not authoritative. */
  ghost predicate Grounded(sha: Sha, r: seq<State>, blobs: set<seq<byte>>, c: Client) {
    || (exists v :: WholeIndex(sha, r, blobs, v) && IsOf(c, v))
    || (!c.authoritative && IsOf(c, EMPTY))
  }

  /** What a load is made from. */
  ghost predicate Sourced(sha: Sha, r: seq<State>, blobs: set<seq<byte>>, c: Client) {
    match c.phase
    case NotLoaded => true
    case Loading(copy, from) =>
      (WholeIndex(sha, r, blobs, copy) || copy == EMPTY) && (Somewhere(from) ==> WholeIndex(sha, r, blobs, copy))
    case Arrived(copy, outcome, confirmed) =>
      && (WholeIndex(sha, r, blobs, copy) || copy == EMPTY)
      && (confirmed && outcome.LiveSet? ==> WholeIndex(sha, r, blobs, copy))
      && (confirmed && outcome.NewSet? ==> WholeIndex(sha, r, blobs, outcome.keys))
      && (!confirmed && outcome.NewSet? ==> outcome.keys == EMPTY)
    case Loaded => Grounded(sha, r, blobs, c)
  }

  lemma GrowWhole(sha: Sha, r: seq<State>, r': seq<State>, blobs: set<seq<byte>>, blobs': set<seq<byte>>, v: View)
    requires r <= r' && blobs <= blobs' && WholeIndex(sha, r, blobs, v)
    ensures WholeIndex(sha, r', blobs', v)
  {
    hide TrueView, Accepted, KeysOf;
    if b :| OfBlob(sha, blobs, b, v) {
      assert OfBlob(sha, blobs', b, v);
    } else {
      var g :| TrueView(r, g, v);
      GrowView(r, r', g, v);
    }
  }

  lemma {:induction false} GrowSourced(sha: Sha, r: seq<State>, r': seq<State>, blobs: set<seq<byte>>,
                                       blobs': set<seq<byte>>, c: Client)
    requires r <= r' && blobs <= blobs' && Sourced(sha, r, blobs, c)
    ensures Sourced(sha, r', blobs', c)
  {
    hide WholeIndex, IsOf;
    forall v | WholeIndex(sha, r, blobs, v)
      ensures WholeIndex(sha, r', blobs', v)
    {
      GrowWhole(sha, r, r', blobs, blobs', v);
    }
  }

  /** A complete client is grounded. */
  lemma CompleteGrounds(sha: Sha, r: seq<State>, blobs: set<seq<byte>>, c: Client)
    requires Complete(r, c)
    ensures Grounded(sha, r, blobs, c)
  {
    hide TrueView, Stands, View.Masks, Accepted, KeysOf;
    var v: View :| v.Masks() && TrueView(r, c.liveGen, v) && Stands(c.keys, v, c.claimed, c.dropped);
    assert WholeIndex(sha, r, blobs, v) && IsOf(c, v);
  }

  lemma {:induction false} AdoptGrounds(sha: Sha, r: seq<State>, blobs: set<seq<byte>>, c: Client)
    requires Coherent(c) && c.phase.Arrived? && Sourced(sha, r, blobs, c)
    ensures Sourced(sha, r, blobs, Adopt(c))
  {
    hide WholeIndex, Stands, Replayed, View.Masks;
    var Arrived(copy, outcome, confirmed) := c.phase;
    if outcome.NewSet? {
      ReplayStands(outcome.keys, c.journal, c.claimed, c.dropped);
      assert IsOf(Adopt(c), outcome.keys);
    } else {
      assert IsOf(Adopt(c), copy);
    }
  }

  lemma {:induction false} KeepGrounds(sha: Sha, r: seq<State>, blobs: set<seq<byte>>, c: Client, young: bool)
    requires Coherent(c) && c.phase.Loading? && Somewhere(c.phase.from) && Sourced(sha, r, blobs, c)
    ensures Sourced(sha, r, blobs, KeepCopy(c, young))
  {
    hide WholeIndex, Stands, Replayed, View.Masks;
    assert IsOf(KeepCopy(c, young), c.phase.copy);
  }

  lemma {:induction false} ClaimSourced(sha: Sha, r: seq<State>, blobs: set<seq<byte>>, c: Client, h: Hash)
    requires Coherent(c) && Sourced(sha, r, blobs, c) && !c.phase.NotLoaded?
    ensures Sourced(sha, r, blobs, Claim(c, h))
  {
    hide WholeIndex, Stands, View.Masks, View.Plus, Coherent;
    CoherentMasks(c);
    forall v | IsOf(c, v)
      ensures IsOf(Claim(c, h), v)
    {
      ClaimStands(c.keys, v, c.claimed, c.dropped, h);
    }
  }

  lemma {:induction false} DropSourced(sha: Sha, r: seq<State>, blobs: set<seq<byte>>, c: Client, h: Hash)
    requires Coherent(c) && Sourced(sha, r, blobs, c) && !c.phase.NotLoaded?
    ensures Sourced(sha, r, blobs, Drop(c, h))
  {
    hide WholeIndex, Stands, View.Masks, View.Minus, Coherent;
    CoherentMasks(c);
    forall v | IsOf(c, v)
      ensures IsOf(Drop(c, h), v)
    {
      DropStands(c.keys, v, c.claimed, c.dropped, h);
    }
  }

  lemma {:induction false} BlobIsWhole(sha: Sha, r: seq<State>, blobs: set<seq<byte>>, b: seq<byte>)
    requires b in blobs && Accepted(sha, b)
    ensures WholeIndex(sha, r, blobs, KeysOf(sha, b)) && KeysOf(sha, b).Masks()
  {
    hide TrueView, Accepted, KeysOf, View.Masks;
    KeysOfMasks(sha, b);
    assert OfBlob(sha, blobs, b, KeysOf(sha, b));
  }

  lemma {:induction false} BeginSources(sha: Sha, r: seq<State>, blobs: set<seq<byte>>, p: Proc, young: bool)
    requires p.client.phase.NotLoaded? && (p.hand.NoCopy? || p.hand.CopyRead?) && Shaped(sha, p)
    requires TrueProc(sha, r, blobs, p)
    ensures Sourced(sha, r, blobs, AfterBegin(sha, p, young).client)
  {
    hide TrueView, Accepted, KeysOf, View.Masks, WholeIndex, Stands, LongEnough;
    if p.hand.CopyRead? {
      BlobIsWhole(sha, r, blobs, p.hand.blob);
      StandsSelf(KeysOf(sha, p.hand.blob));
      assert IsOf(AfterBegin(sha, p, young).client, KeysOf(sha, p.hand.blob));
    }
  }

  /** The end of a load, before it is adopted. */
  lemma {:induction false} ArriveSources(sha: Sha, s: Sys, p: Proc, a: Action, blobs: set<seq<byte>>)
    requires TrueProc(sha, s.r, blobs, p) && Enabled(sha, s, p, a) && Shaped(sha, p) && Sourced(sha, s.r, blobs, p.client)
    requires a.FullReply? || a.NotModified? || a.OtherRefresh? || a.LoadFails? || a.LoadCancelled?
    requires blobs >= BlobsOf(sha, s, p, a)
    ensures Sourced(sha, s.r, blobs, After(sha, s, p, a).client)
  {
    hide TrueView, Accepted, KeysOf, View.Masks, WholeIndex, Stands, LongEnough, ETag, ServedAt, Answer, Complete;
    match a {
      case FullReply(j) => BlobIsWhole(sha, s.r, blobs, Answer(s, j).0);
      case OtherRefresh => BlobIsWhole(sha, s.r, blobs, p.hand.blob);
      case NotModified(j) => BlobIsWhole(sha, s.r, blobs, p.base.value);
      case LoadFails => if p.base.Some? { BlobIsWhole(sha, s.r, blobs, p.base.value); }
      case _ =>
    }
  }

  lemma AskerIsLoaded(c: Client)
    requires Coherent(c) && c.asking
    ensures c.phase.Loaded?
  {
  }

  /** Neither position nor a request under way matters. */
  lemma SameSourced(sha: Sha, r: seq<State>, blobs: set<seq<byte>>, c: Client, c': Client)
    requires Sourced(sha, r, blobs, c) && (c' == c.(liveGen := c'.liveGen, asking := c'.asking) || c'.phase.NotLoaded?)
    ensures Sourced(sha, r, blobs, c')
  {
    hide WholeIndex, Stands, View.Masks;
    if c.phase.Loaded? && c'.phase.Loaded? {
      forall v | IsOf(c, v)
        ensures IsOf(c', v)
      {
      }
    }
  }

  /** Every action keeps a client sourced. */
  lemma {:induction false} ActionSources(sha: Sha, s: Sys, p: Proc, a: Action, blobs: set<seq<byte>>)
    requires TrueProc(sha, s.r, blobs, p) && Enabled(sha, s, p, a) && Shaped(sha, p) && Sourced(sha, s.r, blobs, p.client)
    requires blobs >= BlobsOf(sha, s, p, a) && TrueProc(sha, s.r, blobs, After(sha, s, p, a))
    ensures Sourced(sha, s.r, blobs, After(sha, s, p, a).client)
  {
    hide TrueView, Accepted, KeysOf, View.Masks, WholeIndex, Stands, LongEnough, ETag, ServedAt, Answer, Complete;
    hide IsOf, Grounded, Coherent, DeltaBlob, Persist, Adopt, KeepCopy, Claim, Drop, AfterReply, AfterNotModified;
    hide AfterBegin;
    var c, c' := p.client, After(sha, s, p, a).client;
    if a.FullReply? || a.NotModified? || a.OtherRefresh? || a.LoadFails? || a.LoadCancelled? {
      ArriveSources(sha, s, p, a, blobs);
    } else if c'.phase.Loaded? && Somewhere(c'.liveGen) {
      CompleteGrounds(sha, s.r, blobs, c');
    } else {
      match a {
        case Begin(young) => BeginSources(sha, s.r, blobs, p, young);
        case AdoptNow => AdoptGrounds(sha, s.r, blobs, c);
        case DeltaFails(young) => KeepGrounds(sha, s.r, blobs, c, young);
        case ClaimKey(h) => ClaimSourced(sha, s.r, blobs, c, h);
        case DropKey(h) => DropSourced(sha, s.r, blobs, c, h);
        case DeltaReply(_, _) =>
        case LiveReply(_, _) => AskerIsLoaded(c);
        case _ => SameSourced(sha, s.r, blobs, c, c');
      }
    }
  }

  lemma {:induction false} NextSources(sha: Sha, cfg: Config, s: Sys, e: Event, s': Sys, n: nat)
    requires Inv(sha, cfg, s) && Inv(sha, cfg, s') && Next(sha, cfg, s, e, s') && n in s'.procs
    requires n in s.procs ==> Sourced(sha, s.r, s.blobs, s.procs[n].client)
    ensures Sourced(sha, s'.r, s'.blobs, s'.procs[n].client)
  {
    hide TrueProc, TrueDisk, Run, Fits, Shaped, After, BlobsOf, DiskAfter, Enabled, Sourced;
    NextGrows(sha, cfg, s, e, s');
    if n in s.procs { GrowSourced(sha, s.r, s'.r, s.blobs, s'.blobs, s.procs[n].client); }
    if e.Act? && e.n == n {
      GrowProc(sha, s.r, s'.r, s.blobs, s'.blobs, s.procs[n]);
      ActionSources(sha, s, s.procs[n], e.a, s'.blobs);
    } else if n !in s.procs {
      NewIsSourced(sha, s'.r, s'.blobs);
    }
  }

  lemma NewIsSourced(sha: Sha, r: seq<State>, blobs: set<seq<byte>>)
    ensures Sourced(sha, r, blobs, NEW_PROC.client)
  {
  }

  lemma {:induction false} RunSources(sha: Sha, cfg: Config, ss: seq<Sys>, es: seq<Event>, k: nat, n: nat)
    requires SysRun(sha, cfg, ss, es) && k < |ss| && Fits(ss[k].r) && NoCollision(sha, ss[k].blobs) && n in ss[k].procs
    ensures Sourced(sha, ss[k].r, ss[k].blobs, ss[k].procs[n].client)
  {
    hide Inv, Next, NoCollision, Fits, Shaped, Sourced;
    if k > 0 {
      var m := k - 1;
      assert Next(sha, cfg, ss[m], es[m], ss[k]);
      NextGrows(sha, cfg, ss[m], es[m], ss[k]);
      FitsLess(ss[m].r, ss[k].r);
      NoCollisionLess(sha, ss[m].blobs, ss[k].blobs);
      RunKeeps(sha, cfg, ss, es, m);
      RunKeeps(sha, cfg, ss, es, k);
      if n in ss[m].procs { RunSources(sha, cfg, ss, es, m, n); }
      NextSources(sha, cfg, ss[m], es[m], ss[k], n);
    }
  }

  /**
   In every run an authoritative set stands, but for what its client claimed and dropped, for a whole
   index: one that a blob of the run holds, or one that the server advertised. So it does after the
   server said that its position is gone.
   */
  lemma {:induction false} AuthoritativeIsWhole(sha: Sha, cfg: Config, ss: seq<Sys>, es: seq<Event>, k: nat, n: nat)
    returns (v: View)
    requires SysRun(sha, cfg, ss, es) && k < |ss| && Fits(ss[k].r) && NoCollision(sha, ss[k].blobs)
    requires n in ss[k].procs && ss[k].procs[n].client.authoritative
    ensures var c := ss[k].procs[n].client; v.Masks() && Stands(c.keys, v, c.claimed, c.dropped)
    ensures || (exists b | b in ss[k].blobs :: Accepted(sha, b) && v == KeysOf(sha, b))
            || (exists g :: TrueView(ss[k].r, g, v))
  {
    hide SysRun, NoCollision, Fits, Shaped, Accepted, KeysOf, TrueView, Stands, View.Masks, TrueHand, TrueLoad, TrueRecord;
    RunSources(sha, cfg, ss, es, k, n);
    RunKeeps(sha, cfg, ss, es, k);
    var c := ss[k].procs[n].client;
    v :| WholeIndex(sha, ss[k].r, ss[k].blobs, v) && IsOf(c, v);
    if b :| OfBlob(sha, ss[k].blobs, b, v) { assert b in ss[k].blobs; }
  }
}
