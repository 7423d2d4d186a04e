/**
 Whole runs of the system: every action of every process keeps what files, replies and key sets
 are worth, so a copy on disk never names a position it was not, and an authoritative miss is one.
 */
module IndexRuns {
  import opened Options
  import opened Words
  import opened Prefixes
  import opened Gbci
  import opened IndexForms
  import opened KeySet
  import opened AddLog
  import opened ClientBlobs
  import opened IndexClient
  import opened IndexSystem

  /** What an action starts from: a true system, and no two blobs with one ETag. */
  ghost predicate Ready(sha: Sha, cfg: Config, s: Sys, p: Proc, a: Action, blobs: set<seq<byte>>) {
    && Run(sha, cfg, s.r, s.steps) && Fits(s.r)
    && TrueDisk(sha, s.r, s.blobs, s.disk)
    && TrueProc(sha, s.r, s.blobs, p) && TrueProc(sha, s.r, blobs, p)
    && Enabled(sha, s, p, a) && Shaped(sha, p)
    && blobs == s.blobs + BlobsOf(sha, s, p, a) && NoCollision(sha, blobs)
  }

  lemma NoCollisionLess(sha: Sha, some: set<seq<byte>>, all: set<seq<byte>>)
    requires some <= all && NoCollision(sha, all)
    ensures NoCollision(sha, some)
  {
    hide Accepted, ETag, LongEnough;
  }

  lemma {:induction false} ReadKeeps(sha: Sha, cfg: Config, s: Sys, p: Proc, a: Action, blobs: set<seq<byte>>)
    requires Ready(sha, cfg, s, p, a, blobs) && (a.ReadBlob? || a.ReadRecord?)
    ensures TrueProc(sha, s.r, blobs, After(sha, s, p, a))
  {
    hide TrueView, Accepted, KeysOf, Run, Coherent, Complete, NoCollision, ReadGen;
    NoCollisionLess(sha, s.blobs, blobs);
    if a.ReadRecord? { ReadIsTrue(sha, s.r, s.blobs, s.disk, p.hand.blob); }
    else if s.disk.blob.Some? && Accepted(sha, s.disk.blob.value) { KeysOfMasks(sha, s.disk.blob.value); }
  }

  lemma {:induction false} BeginKeeps(sha: Sha, cfg: Config, s: Sys, p: Proc, a: Action, blobs: set<seq<byte>>)
    requires Ready(sha, cfg, s, p, a, blobs) && a.Begin?
    ensures TrueProc(sha, s.r, blobs, After(sha, s, p, a))
  {
    hide TrueView, Accepted, KeysOf, Run, Complete, NoCollision, View.Masks, Stands;
    if p.hand.NoCopy? {
      assert EMPTY.Masks() by { EmptyMasks(); }
      StartCoherent(p.client, false, EMPTY, NOWHERE, a.young);
    } else {
      KeysOfMasks(sha, p.hand.blob);
      StartCoherent(p.client, true, KeysOf(sha, p.hand.blob), p.hand.gen, a.young);
    }
  }

  lemma EmptyMasks()
    ensures EMPTY.Masks()
  {
  }

  lemma {:induction false} FullReplyKeeps(sha: Sha, cfg: Config, s: Sys, p: Proc, a: Action, blobs: set<seq<byte>>)
    requires Ready(sha, cfg, s, p, a, blobs) && a.FullReply?
    ensures TrueProc(sha, s.r, blobs, After(sha, s, p, a))
  {
    hide TrueView, Accepted, KeysOf, Run, Complete, NoCollision, View.Masks, Stands;
    ReplyIsTrue(sha, cfg, s, a.j);
    KeysOfMasks(sha, Answer(s, a.j).0);
  }

  lemma {:induction false} NotModifiedKeeps(sha: Sha, cfg: Config, s: Sys, p: Proc, a: Action, blobs: set<seq<byte>>)
    requires Ready(sha, cfg, s, p, a, blobs) && a.NotModified?
    ensures TrueProc(sha, s.r, blobs, After(sha, s, p, a))
  {
    hide TrueView, Accepted, KeysOf, Run, Complete, View.Masks, Stands, ETag, LongEnough;
    ReplyIsTrue(sha, cfg, s, a.j);
    assert Answer(s, a.j).0 == p.base.value;
  }

  lemma {:induction false} LoadEndsKeeps(sha: Sha, cfg: Config, s: Sys, p: Proc, a: Action, blobs: set<seq<byte>>)
    requires Ready(sha, cfg, s, p, a, blobs) && (a.OtherRefresh? || a.LoadFails? || a.LoadCancelled? || a.DeltaFails?)
    ensures TrueProc(sha, s.r, blobs, After(sha, s, p, a))
  {
    hide TrueView, Accepted, KeysOf, Run, Complete, View.Masks, Stands, NoCollision, LongEnough;
    EmptyMasks();
    if a.OtherRefresh? { KeysOfMasks(sha, p.hand.blob); }
  }

  lemma {:induction false} AdoptKeeps(sha: Sha, cfg: Config, s: Sys, p: Proc, a: Action, blobs: set<seq<byte>>)
    requires Ready(sha, cfg, s, p, a, blobs) && a.AdoptNow?
    ensures TrueProc(sha, s.r, blobs, After(sha, s, p, a))
  {
    hide TrueView, Accepted, KeysOf, Run, View.Masks, Stands, NoCollision, LongEnough, Replayed;
    AdoptCoherent(p.client);
    if p.client.phase.outcome.NewSet? {
      ReplayStands(p.client.phase.outcome.keys, p.client.journal, p.client.claimed, p.client.dropped);
    }
  }

  lemma {:induction false} LiveKeeps(sha: Sha, cfg: Config, s: Sys, p: Proc, a: Action, blobs: set<seq<byte>>)
    requires Ready(sha, cfg, s, p, a, blobs) && (a.Ask? || a.LiveEnds? || a.LiveFails?)
    ensures TrueProc(sha, s.r, blobs, After(sha, s, p, a))
  {
    hide TrueView, Accepted, KeysOf, Run, View.Masks, Stands, NoCollision, LongEnough;
  }

  lemma {:induction false} LiveReplyKeeps(sha: Sha, cfg: Config, s: Sys, p: Proc, a: Action, blobs: set<seq<byte>>)
    requires Ready(sha, cfg, s, p, a, blobs) && a.LiveReply?
    ensures TrueProc(sha, s.r, blobs, After(sha, s, p, a))
  {
    hide TrueView, Accepted, KeysOf, Run, View.Masks, Stands, NoCollision, LongEnough, DeltaView, View.PlusAll;
    var c := p.client;
    var added := DeltaView(sha, s, c.liveGen, a.j, a.form);
    var v: View :| v.Masks() && TrueView(s.r, c.liveGen, v) && Stands(c.keys, v, c.claimed, c.dropped);
    DeltaIsTrue(sha, cfg, s, c.liveGen, a.j, a.form, v);
    JoinStands(c.keys, v, c.claimed, c.dropped, added);
  }

  lemma {:induction false} ClaimKeeps(sha: Sha, cfg: Config, s: Sys, p: Proc, a: Action, blobs: set<seq<byte>>)
    requires Ready(sha, cfg, s, p, a, blobs) && a.ClaimKey?
    ensures TrueProc(sha, s.r, blobs, After(sha, s, p, a))
  {
    hide TrueView, Accepted, KeysOf, Run, View.Masks, Stands, NoCollision, LongEnough, Coherent, View.Plus;
    var c := p.client;
    ClaimCoherent(c, a.h);
    if c.phase.Loaded? && Somewhere(c.liveGen) {
      var v: View :| v.Masks() && TrueView(s.r, c.liveGen, v) && Stands(c.keys, v, c.claimed, c.dropped);
      CoherentMasks(c);
      ClaimStands(c.keys, v, c.claimed, c.dropped, a.h);
    }
  }

  lemma CoherentMasks(c: Client)
    requires Coherent(c)
    ensures c.keys.Masks() && (c.phase.Loading? ==> c.phase.copy.Masks())
  {
  }

  lemma {:induction false} DropKeeps(sha: Sha, cfg: Config, s: Sys, p: Proc, a: Action, blobs: set<seq<byte>>)
    requires Ready(sha, cfg, s, p, a, blobs) && a.DropKey?
    ensures TrueProc(sha, s.r, blobs, After(sha, s, p, a))
  {
    hide TrueView, Accepted, KeysOf, Run, View.Masks, Stands, NoCollision, LongEnough, Coherent, View.Minus;
    var c := p.client;
    DropCoherent(c, a.h);
    if c.phase.Loaded? && Somewhere(c.liveGen) {
      var v: View :| v.Masks() && TrueView(s.r, c.liveGen, v) && Stands(c.keys, v, c.claimed, c.dropped);
      CoherentMasks(c);
      DropStands(c.keys, v, c.claimed, c.dropped, a.h);
    }
  }

  lemma {:induction false} FlushKeeps(sha: Sha, cfg: Config, s: Sys, p: Proc, a: Action, blobs: set<seq<byte>>)
    requires Ready(sha, cfg, s, p, a, blobs) && (a.Flush? || a.FlushFails? || a.Crash?)
    ensures TrueProc(sha, s.r, blobs, After(sha, s, p, a))
  {
    hide TrueView, Accepted, KeysOf, Run, Stands, NoCollision, LongEnough, TrueWrite, Complete;
  }

  lemma {:induction false} KeysSize(hashes: set<Hash>, shift: nat)
    ensures |KeysAt(hashes, shift)| <= |hashes|
    decreases |hashes|
  {
    hide KeyAt;
    if hashes == {} {
      assert KeysAt(hashes, shift) == {};
    } else {
      var h :| h in hashes;
      KeysSize(hashes - {h}, shift);
      assert KeysAt(hashes, shift) == KeysAt(hashes - {h}, shift) + {KeyAt(h, shift)};
    }
  }

  lemma {:induction false} TrueViewSize(r: seq<State>, g: Gen, v: View)
    requires Fits(r) && TrueView(r, g, v)
    ensures |v.members| < WORD
  {
    hide KeysAt;
    var i :| 0 <= i < |r| && r[i].Position() == g && v.members == KeysAt(r[i].Advertised(), v.shift);
    KeysSize(r[i].Advertised(), v.shift);
  }

  /** What a delta leaves to write is true once it is written. */
  lemma {:induction false} PersistIsTrue(sha: Sha, r: seq<State>, blobs: set<seq<byte>>, base: seq<byte>,
                                         added: View, to: Gen)
    requires Fits(r) && base in blobs && Accepted(sha, base) && LongEnough(base)
    requires var all := KeysOf(sha, base).PlusAll(added);
             all.Masks() && all.shift <= 32 && TrueView(r, to, all)
               && (added.members == {} ==> TrueView(r, to, KeysOf(sha, base)))
    requires forall w | w in Persist(sha, base, added, OnWire(to)) && w.PutBlob? :: w.blob in blobs
    ensures forall w | w in Persist(sha, base, added, OnWire(to)) :: TrueWrite(sha, r, blobs, w)
  {
    hide TrueView, Accepted, KeysOf, View.Masks, MarshalView, View.PlusAll, ETag, LongEnough;
    var all := KeysOf(sha, base).PlusAll(added);
    var writes := Persist(sha, base, added, OnWire(to));
    if |added.members| >= PERSIST_DELTA_MIN {
      TrueViewSize(r, to, all);
      ViewRoundTrip(sha, all);
      KeysOfMasks(sha, MarshalView(sha, all));
      assert PutBlob(MarshalView(sha, all)) == writes[0];
    }
  }

  lemma {:induction false} DeltaReplyClient(sha: Sha, cfg: Config, s: Sys, c: Client, j: nat, form: Form)
    requires Run(sha, cfg, s.r, s.steps) && Fits(s.r) && Coherent(c) && c.phase.Loading?
    requires DeltaAt(sha, s, c.phase.from, j, form) && TrueView(s.r, c.phase.from, c.phase.copy)
    ensures var to := OnWire(s.r[j].Position());
            var c' := InstallDelta(c, DeltaView(sha, s, c.phase.from, j, form), to);
            Coherent(c') && (Somewhere(to) ==> Complete(s.r, c'))
  {
    hide TrueView, Accepted, Run, View.Masks, Stands, DeltaView, View.PlusAll, Coherent, Answers;
    var added, to := DeltaView(sha, s, c.phase.from, j, form), s.r[j].Position();
    CoherentMasks(c);
    DeltaIsTrue(sha, cfg, s, c.phase.from, j, form, c.phase.copy);
    InstallCoherent(c, added, OnWire(to));
  }

  lemma {:induction false} DeltaReplyWrites(sha: Sha, cfg: Config, s: Sys, base: seq<byte>, from: Gen,
                                            j: nat, form: Form, blobs: set<seq<byte>>)
    requires Run(sha, cfg, s.r, s.steps) && Fits(s.r) && DeltaAt(sha, s, from, j, form)
    requires base in blobs && Accepted(sha, base) && LongEnough(base) && TrueView(s.r, from, KeysOf(sha, base))
    requires KeysOf(sha, base).PlusAll(DeltaView(sha, s, from, j, form)).Masks()
    requires KeysOf(sha, base).PlusAll(DeltaView(sha, s, from, j, form)).shift <= 32
    requires forall w | w in Persist(sha, base, DeltaView(sha, s, from, j, form), OnWire(s.r[j].Position())) && w.PutBlob? ::
               w.blob in blobs
    ensures forall w | w in Persist(sha, base, DeltaView(sha, s, from, j, form), OnWire(s.r[j].Position())) ::
               TrueWrite(sha, s.r, blobs, w)
  {
    hide TrueView, Accepted, KeysOf, Run, View.Masks, LongEnough, DeltaView, View.PlusAll, Answers, TrueWrite, Persist;
    KeysOfMasks(sha, base);
    DeltaIsTrue(sha, cfg, s, from, j, form, KeysOf(sha, base));
    PersistIsTrue(sha, s.r, blobs, base, DeltaView(sha, s, from, j, form), s.r[j].Position());
  }

  lemma {:induction false} DeltaReplyKeeps(sha: Sha, cfg: Config, s: Sys, p: Proc, a: Action, blobs: set<seq<byte>>)
    requires Ready(sha, cfg, s, p, a, blobs) && a.DeltaReply?
    ensures TrueProc(sha, s.r, blobs, After(sha, s, p, a))
  {
    hide TrueView, Accepted, KeysOf, Run, View.Masks, NoCollision, LongEnough, View.PlusAll, Coherent;
    hide TrueWrite, Persist, Complete, DeltaBlob, Answers, Served, TrueHand;
    var from := p.client.phase.from;
    DeltaReplyClient(sha, cfg, s, p.client, a.j, a.form);
    PersistWellFormed(sha, p.base.value, DeltaBlob(sha, s.r[a.j], from, a.form));
    var writes := Persist(sha, p.base.value, DeltaView(sha, s, from, a.j, a.form), OnWire(s.r[a.j].Position()));
    forall w | w in writes && w.PutBlob?
      ensures w.blob in blobs
    {
      assert w in After(sha, s, p, a).writes;
    }
    DeltaReplyWrites(sha, cfg, s, p.base.value, from, a.j, a.form, blobs);
  }

  lemma {:induction false} TrueIsShaped(sha: Sha, r: seq<State>, blobs: set<seq<byte>>, p: Proc)
    requires TrueProc(sha, r, blobs, p)
    ensures Shaped(sha, p)
  {
    hide Accepted, LongEnough, KeysOf, TrueView, Stands, View.Masks, Complete;
  }

  /** Every action keeps its process true. */
  lemma {:induction false} ActionKeeps(sha: Sha, cfg: Config, s: Sys, p: Proc, a: Action, blobs: set<seq<byte>>)
    requires Ready(sha, cfg, s, p, a, blobs)
    ensures TrueProc(sha, s.r, blobs, After(sha, s, p, a))
  {
    hide *;
    match a {
      case ReadBlob => ReadKeeps(sha, cfg, s, p, a, blobs);
      case ReadRecord => ReadKeeps(sha, cfg, s, p, a, blobs);
      case Begin(_) => BeginKeeps(sha, cfg, s, p, a, blobs);
      case FullReply(_) => FullReplyKeeps(sha, cfg, s, p, a, blobs);
      case NotModified(_) => NotModifiedKeeps(sha, cfg, s, p, a, blobs);
      case AdoptNow => AdoptKeeps(sha, cfg, s, p, a, blobs);
      case DeltaReply(_, _) => DeltaReplyKeeps(sha, cfg, s, p, a, blobs);
      case Ask => LiveKeeps(sha, cfg, s, p, a, blobs);
      case LiveEnds => LiveKeeps(sha, cfg, s, p, a, blobs);
      case LiveFails => LiveKeeps(sha, cfg, s, p, a, blobs);
      case LiveReply(_, _) => LiveReplyKeeps(sha, cfg, s, p, a, blobs);
      case ClaimKey(_) => ClaimKeeps(sha, cfg, s, p, a, blobs);
      case DropKey(_) => DropKeeps(sha, cfg, s, p, a, blobs);
      case Flush => FlushKeeps(sha, cfg, s, p, a, blobs);
      case FlushFails => FlushKeeps(sha, cfg, s, p, a, blobs);
      case Crash => FlushKeeps(sha, cfg, s, p, a, blobs);
      case _ => LoadEndsKeeps(sha, cfg, s, p, a, blobs);
    }
  }

  lemma {:induction false} DiskKeeps(sha: Sha, r: seq<State>, blobs: set<seq<byte>>, s: Sys, p: Proc, a: Action)
    requires TrueDisk(sha, r, blobs, s.disk) && TrueProc(sha, r, blobs, p) && (a.Flush? ==> p.writes != [])
    ensures TrueDisk(sha, r, blobs, DiskAfter(s, p, a))
  {
    hide TrueRecord, TrueHand, TrueLoad, Coherent;
    if a.Flush? { assert TrueWrite(sha, r, blobs, p.writes[0]); }
  }

  datatype Event = Server(step: Step) | Spawn(n: nat) | Act(n: nat, a: Action)

  /** Before anything ran: any bytes may be on disk, but no record. */
  ghost predicate Starts(s: Sys) {
    && |s.r| == 1 && s.r[0].forms == map[] && s.steps == []
    && s.disk.rec.None? && (s.disk.blob.Some? ==> s.blobs == {s.disk.blob.value})
    && s.procs == map[]
  }

  ghost predicate Acts(sha: Sha, s: Sys, n: nat, a: Action, s': Sys) {
    && n in s.procs && Enabled(sha, s, s.procs[n], a) && Shaped(sha, s.procs[n])
    && s' == s.(disk := DiskAfter(s, s.procs[n], a), blobs := s.blobs + BlobsOf(sha, s, s.procs[n], a),
                procs := s.procs[n := After(sha, s, s.procs[n], a)])
  }

  ghost predicate Next(sha: Sha, cfg: Config, s: Sys, e: Event, s': Sys) {
    match e
    case Server(step) =>
      && s' == s.(r := s'.r, steps := s.steps + [step])
      && s.r <= s'.r && Run(sha, cfg, s'.r, s'.steps)
    case Spawn(n) => n !in s.procs && s' == s.(procs := s.procs[n := NEW_PROC])
    case Act(n, a) => Acts(sha, s, n, a, s')
  }

  ghost predicate SysRun(sha: Sha, cfg: Config, ss: seq<Sys>, es: seq<Event>) {
    && |ss| == |es| + 1 && Starts(ss[0])
    && forall i | 0 <= i < |es| :: Next(sha, cfg, ss[i], es[i], ss[i + 1])
  }

  lemma {:induction false} ActsKeeps(sha: Sha, cfg: Config, s: Sys, n: nat, a: Action, s': Sys)
    requires Inv(sha, cfg, s) && Acts(sha, s, n, a, s') && Fits(s'.r) && NoCollision(sha, s'.blobs)
    ensures Inv(sha, cfg, s')
  {
    hide TrueProc, TrueDisk, Run, NoCollision, Fits, Shaped, After, BlobsOf, DiskAfter, DeltaAt, ServedAt, Accepted, MayAsk;
    var p := s.procs[n];
    GrowDisk(sha, s.r, s.r, s.blobs, s'.blobs, s.disk);
    forall k | k in s.procs
      ensures TrueProc(sha, s.r, s'.blobs, s.procs[k])
    {
      GrowProc(sha, s.r, s.r, s.blobs, s'.blobs, s.procs[k]);
    }
    ActionKeeps(sha, cfg, s, p, a, s'.blobs);
    DiskKeeps(sha, s.r, s'.blobs, s, p, a);
  }

  lemma {:induction false} NextKeeps(sha: Sha, cfg: Config, s: Sys, e: Event, s': Sys)
    requires Inv(sha, cfg, s) && Next(sha, cfg, s, e, s') && Fits(s'.r) && NoCollision(sha, s'.blobs)
    ensures Inv(sha, cfg, s')
  {
    hide TrueProc, TrueDisk, Run, NoCollision, Fits, Acts;
    match e {
      case Server(step) =>
        GrowDisk(sha, s.r, s'.r, s.blobs, s.blobs, s.disk);
        forall k | k in s.procs
          ensures TrueProc(sha, s'.r, s.blobs, s.procs[k])
        {
          GrowProc(sha, s.r, s'.r, s.blobs, s.blobs, s.procs[k]);
        }
      case Spawn(n) => NewIsTrue(sha, s.r, s.blobs);
      case Act(n, a) => ActsKeeps(sha, cfg, s, n, a, s');
    }
  }

  lemma NewIsTrue(sha: Sha, r: seq<State>, blobs: set<seq<byte>>)
    ensures TrueProc(sha, r, blobs, NEW_PROC)
  {
  }

  lemma {:induction false} StartIsTrue(sha: Sha, cfg: Config, s: Sys)
    requires Starts(s)
    ensures Inv(sha, cfg, s)
  {
  }

  /** Nothing a run has held is forgotten. */
  lemma {:induction false} NextGrows(sha: Sha, cfg: Config, s: Sys, e: Event, s': Sys)
    requires Next(sha, cfg, s, e, s')
    ensures s.r <= s'.r && s.blobs <= s'.blobs
  {
    hide Run, Enabled, Shaped, After, BlobsOf, DiskAfter;
  }

  lemma FitsLess(r: seq<State>, r': seq<State>)
    requires r <= r' && Fits(r')
    ensures Fits(r)
  {
    assert forall i | 0 <= i < |r| :: r[i] == r'[i];
  }

  /** Every reachable state of the system is true, and every process in it is shaped. */
  lemma {:induction false} RunKeeps(sha: Sha, cfg: Config, ss: seq<Sys>, es: seq<Event>, k: nat)
    requires SysRun(sha, cfg, ss, es) && k < |ss| && Fits(ss[k].r) && NoCollision(sha, ss[k].blobs)
    ensures Inv(sha, cfg, ss[k])
    ensures forall n | n in ss[k].procs :: Shaped(sha, ss[k].procs[n])
  {
    hide Inv, Next, NoCollision, Fits, Shaped, Starts;
    if k == 0 {
      StartIsTrue(sha, cfg, ss[0]);
    } else {
      assert Next(sha, cfg, ss[k - 1], es[k - 1], ss[k]);
      NextGrows(sha, cfg, ss[k - 1], es[k - 1], ss[k]);
      FitsLess(ss[k - 1].r, ss[k].r);
      NoCollisionLess(sha, ss[k - 1].blobs, ss[k].blobs);
      RunKeeps(sha, cfg, ss, es, k - 1);
      NextKeeps(sha, cfg, ss[k - 1], es[k - 1], ss[k]);
    }
    AllShaped(sha, cfg, ss[k]);
  }

  lemma {:induction false} AllShaped(sha: Sha, cfg: Config, s: Sys)
    requires Inv(sha, cfg, s)
    ensures forall n | n in s.procs :: Shaped(sha, s.procs[n])
  {
    hide TrueProc, Run, TrueDisk, Shaped;
    forall n | n in s.procs
      ensures Shaped(sha, s.procs[n])
    {
      TrueIsShaped(sha, s.r, s.blobs, s.procs[n]);
    }
  }

  /**
   The disk never lies: whatever crashes, lost writes and other processes came between, a copy
   that reads as being at a position holds exactly what the server advertised at that position.
   */
  lemma {:induction false} DiskNeverLies(sha: Sha, cfg: Config, ss: seq<Sys>, es: seq<Event>, k: nat, b: seq<byte>)
    requires SysRun(sha, cfg, ss, es) && k < |ss| && Fits(ss[k].r) && NoCollision(sha, ss[k].blobs)
    requires ss[k].disk.blob == Some(b) && Accepted(sha, b) && LongEnough(b) && Somewhere(ReadGen(ss[k].disk.rec, b))
    ensures exists i | 0 <= i < |ss[k].r| ::
              && ss[k].r[i].Position() == ReadGen(ss[k].disk.rec, b)
              && KeysOf(sha, b).members == KeysAt(ss[k].r[i].Advertised(), KeysOf(sha, b).shift)
  {
    hide SysRun, NoCollision, Fits, Shaped, TrueProc, Accepted, KeysOf, LongEnough, ReadGen, KeysAt, TrueRecord;
    RunKeeps(sha, cfg, ss, es, k);
    ReadIsTrue(sha, ss[k].r, ss[k].blobs, ss[k].disk, b);
  }

  /** So does a pair the two reads of one process straddled a write with. */
  lemma {:induction false} CopyReadIsTrue(sha: Sha, cfg: Config, ss: seq<Sys>, es: seq<Event>, k: nat, n: nat)
    requires SysRun(sha, cfg, ss, es) && k < |ss| && Fits(ss[k].r) && NoCollision(sha, ss[k].blobs)
    requires n in ss[k].procs && ss[k].procs[n].hand.CopyRead? && Somewhere(ss[k].procs[n].hand.gen)
    ensures var CopyRead(b, g) := ss[k].procs[n].hand;
            Accepted(sha, b) && TrueView(ss[k].r, g, KeysOf(sha, b))
  {
    hide SysRun, NoCollision, Fits, Shaped, Accepted, KeysOf, LongEnough, TrueView, TrueLoad, TrueRecord, Coherent;
    RunKeeps(sha, cfg, ss, es, k);
  }

  /**
   An authoritative miss is a miss: in every reachable state, a hash the server advertised at the
   position a loaded client holds is one the client has, or one that a hash it dropped stands for.
   */
  lemma {:induction false} MissIsSound(sha: Sha, cfg: Config, ss: seq<Sys>, es: seq<Event>, k: nat, n: nat, i: nat, h: Hash)
    requires SysRun(sha, cfg, ss, es) && k < |ss| && Fits(ss[k].r) && NoCollision(sha, ss[k].blobs)
    requires n in ss[k].procs && ss[k].procs[n].client.phase.Loaded? && Somewhere(ss[k].procs[n].client.liveGen)
    requires i < |ss[k].r| && ss[k].r[i].Position() == ss[k].procs[n].client.liveGen && h in ss[k].r[i].Advertised()
    ensures var c := ss[k].procs[n].client;
            c.keys.Has(h) || exists d | d in c.dropped :: KeyAt(d, c.keys.shift) == KeyAt(h, c.keys.shift)
  {
    hide SysRun, NoCollision, Fits, Shaped, Accepted, KeysOf, LongEnough, TrueHand, TrueRecord, Coherent, Run, TrueView;
    RunKeeps(sha, cfg, ss, es, k);
    var c := ss[k].procs[n].client;
    CompleteHas(sha, cfg, ss[k], c, i, h);
  }

  lemma {:induction false} CompleteHas(sha: Sha, cfg: Config, s: Sys, c: Client, i: nat, h: Hash)
    requires Run(sha, cfg, s.r, s.steps) && Complete(s.r, c)
    requires i < |s.r| && s.r[i].Position() == c.liveGen && h in s.r[i].Advertised()
    ensures c.keys.Has(h) || exists d | d in c.dropped :: KeyAt(d, c.keys.shift) == KeyAt(h, c.keys.shift)
  {
    hide Run, Masked, View.Masks;
    var v: View :| v.Masks() && TrueView(s.r, c.liveGen, v) && Stands(c.keys, v, c.claimed, c.dropped);
    var i' :| 0 <= i' < |s.r| && s.r[i'].Position() == c.liveGen && v.members == KeysAt(s.r[i'].Advertised(), v.shift);
    PositionNamesSet(sha, cfg, s.r, s.steps, i, i');
    var m := KeyAt(h, v.shift);
    assert m in v.members;
    MaskTwice(Key64(h), v.shift, c.keys.shift);
    assert Masked(m, c.keys.shift) == KeyAt(h, c.keys.shift);
  }

  /**
   And a key that is held is not made up: in every reachable state, each key of a loaded client
   with a position is that of a hash the server advertised there, or of one the client claimed.
   */
  lemma {:induction false} HitIsSound(sha: Sha, cfg: Config, ss: seq<Sys>, es: seq<Event>, k: nat, n: nat, i: nat, key: u64)
    requires SysRun(sha, cfg, ss, es) && k < |ss| && Fits(ss[k].r) && NoCollision(sha, ss[k].blobs)
    requires n in ss[k].procs && ss[k].procs[n].client.phase.Loaded? && Somewhere(ss[k].procs[n].client.liveGen)
    requires i < |ss[k].r| && ss[k].r[i].Position() == ss[k].procs[n].client.liveGen
    requires key in ss[k].procs[n].client.keys.members
    ensures var c := ss[k].procs[n].client;
            key in KeysAt(ss[k].r[i].Advertised(), c.keys.shift) || key in KeysAt(c.claimed, c.keys.shift)
  {
    hide SysRun, NoCollision, Fits, Shaped, Accepted, KeysOf, LongEnough, TrueHand, TrueRecord, Coherent, Run,
         TrueView, KeysAt;
    RunKeeps(sha, cfg, ss, es, k);
    CompleteFrom(sha, cfg, ss[k], ss[k].procs[n].client, i, key);
  }

  lemma {:induction false} CompleteFrom(sha: Sha, cfg: Config, s: Sys, c: Client, i: nat, key: u64)
    requires Run(sha, cfg, s.r, s.steps) && Complete(s.r, c) && key in c.keys.members
    requires i < |s.r| && s.r[i].Position() == c.liveGen
    ensures key in KeysAt(s.r[i].Advertised(), c.keys.shift) || key in KeysAt(c.claimed, c.keys.shift)
  {
    hide Run, Masked, View.Masks, KeysAt, Narrowed, Carries;
    var v: View :| v.Masks() && TrueView(s.r, c.liveGen, v) && Stands(c.keys, v, c.claimed, c.dropped);
    var i' :| 0 <= i' < |s.r| && s.r[i'].Position() == c.liveGen && v.members == KeysAt(s.r[i'].Advertised(), v.shift);
    PositionNamesSet(sha, cfg, s.r, s.steps, i, i');
    NarrowedKeys(s.r[i].Advertised(), v.shift, c.keys.shift);
  }

  // Such runs exist: a first client of a server that has served its index.

  lemma {:induction false} Extend(sha: Sha, cfg: Config, ss: seq<Sys>, es: seq<Event>, e: Event, s': Sys)
    requires SysRun(sha, cfg, ss, es) && Next(sha, cfg, ss[|ss| - 1], e, s')
    ensures SysRun(sha, cfg, ss + [s'], es + [e])
  {
    hide Next, Starts;
  }

  /** A run of one server that served its index in one form. */
  lemma {:induction false} ServedOnce(sha: Sha, cfg: Config, hashes: set<Hash>, epoch: u64, form: Form)
    returns (ss: seq<Sys>, es: seq<Event>)
    requires Served(form)
    ensures SysRun(sha, cfg, ss, es) && |ss| == 2
    ensures var s := ss[1];
            && s.disk == Disk(None, None) && s.blobs == {} && s.procs == map[] && ServedAt(s, 0)
            && |s.r| == 2 && s.r[0].Advertised() == s.r[1].Advertised() == hashes && s.r[0].added == s.r[1].added == []
            && Answer(s, 0).1 == s.r[0].Position() == Gen(epoch, 0)
  {
    hide Serialize, Served;
    var a := State(hashes, {}, 0, map[], epoch, []);
    var step := Serve(form, 0, 0);
    var b := Apply(sha, cfg, a, step);
    var s := Sys([a], [], Disk(None, None), {}, map[]);
    var s' := s.(r := [a, b], steps := [step]);
    assert Follows(sha, cfg, s'.r[0], step, s'.r[1]);
    ss, es := [s, s'], [Server(step)];
    assert a.Advertised() == hashes && b.Advertised() == hashes;
  }

  /** One process, alone, does one thing. */
  ghost function Did(sha: Sha, s: Sys, a: Action): Sys
    requires 0 in s.procs && Enabled(sha, s, s.procs[0], a) && Shaped(sha, s.procs[0])
  {
    s.(disk := DiskAfter(s, s.procs[0], a), blobs := s.blobs + BlobsOf(sha, s, s.procs[0], a),
       procs := s.procs[0 := After(sha, s, s.procs[0], a)])
  }

  lemma ActIs(sha: Sha, cfg: Config, s: Sys, a: Action)
    requires 0 in s.procs && Enabled(sha, s, s.procs[0], a) && Shaped(sha, s.procs[0])
    ensures Next(sha, cfg, s, Act(0, a), Did(sha, s, a))
  {
    hide After, BlobsOf, DiskAfter, Enabled, Shaped;
  }

  lemma {:induction false} Do(sha: Sha, cfg: Config, ss: seq<Sys>, es: seq<Event>, a: Action)
    returns (ss': seq<Sys>, es': seq<Event>)
    requires SysRun(sha, cfg, ss, es) && 0 in ss[|ss| - 1].procs
    requires Enabled(sha, ss[|ss| - 1], ss[|ss| - 1].procs[0], a) && Shaped(sha, ss[|ss| - 1].procs[0])
    ensures SysRun(sha, cfg, ss', es') && ss' == ss + [Did(sha, ss[|ss| - 1], a)]
  {
    hide Next, Starts, After, BlobsOf, DiskAfter, Enabled, Shaped;
    var s' := Did(sha, ss[|ss| - 1], a);
    assert Next(sha, cfg, ss[|ss| - 1], Act(0, a), s') by { ActIs(sha, cfg, ss[|ss| - 1], a); }
    Extend(sha, cfg, ss, es, Act(0, a), s');
    ss', es' := ss + [s'], es + [Act(0, a)];
  }

  /** The process has read that there is no copy, and starts a load. */
  lemma {:induction false} LoadStarted(sha: Sha, cfg: Config, hashes: set<Hash>, epoch: u64, form: Form)
    returns (ss: seq<Sys>, es: seq<Event>)
    requires Served(form)
    ensures SysRun(sha, cfg, ss, es)
    ensures var s := ss[|ss| - 1];
            && s.disk == Disk(None, None) && s.blobs == {} && ServedAt(s, 0)
            && s.procs == map[0 := Proc(NEW_CLIENT.(journal := Journal({}, {}), phase := Loading(EMPTY, NOWHERE)),
                                        Idle, None, [])]
            && |s.r| == 2 && s.r[0].Advertised() == s.r[1].Advertised() == hashes && s.r[0].added == s.r[1].added == []
            && Answer(s, 0).1 == s.r[0].Position() == Gen(epoch, 0)
  {
    hide Serialize, Served, SysRun;
    ss, es := ServedOnce(sha, cfg, hashes, epoch, form);
    var s := ss[1];
    var s' := s.(procs := map[0 := NEW_PROC]);
    Extend(sha, cfg, ss, es, Spawn(0), s');
    ss, es := ss + [s'], es + [Spawn(0)];
    ss, es := Do(sha, cfg, ss, es, ReadBlob);
    ss, es := Do(sha, cfg, ss, es, Begin(false));
  }

  /** A load whose reply arrives and whose two writes succeed. */
  lemma {:induction false} LoadArrives(sha: Sha, cfg: Config, ss: seq<Sys>, es: seq<Event>)
    returns (ss': seq<Sys>, es': seq<Event>)
    requires SysRun(sha, cfg, ss, es)
    requires var s := ss[|ss| - 1];
             && s.disk == Disk(None, None) && s.blobs == {} && ServedAt(s, 0)
             && Accepted(sha, Answer(s, 0).0) && LongEnough(Answer(s, 0).0)
             && s.procs == map[0 := Proc(NEW_CLIENT.(journal := Journal({}, {}), phase := Loading(EMPTY, NOWHERE)),
                                         Idle, None, [])]
             && Somewhere(Answer(s, 0).1)
    ensures SysRun(sha, cfg, ss', es')
    ensures var s := ss[|ss| - 1]; var (b, g) := Answer(s, 0); var s' := ss'[|ss'| - 1];
            && s'.r == s.r && s'.blobs == {b} && s'.disk == Disk(Some(b), Some(Record(ETag(b), g)))
            && 0 in s'.procs && s'.procs[0].client ==
                 NEW_CLIENT.(keys := Replayed(KeysOf(sha, b), Journal({}, {})), authoritative := true, liveGen := g,
                             phase := Loaded)
  {
    hide Accepted, KeysOf, SysRun, LongEnough, ETag, Replayed;
    ss', es' := Do(sha, cfg, ss, es, FullReply(0));
    ss', es' := Do(sha, cfg, ss', es', Flush);
    ss', es' := Do(sha, cfg, ss', es', Flush);
    ss', es' := Do(sha, cfg, ss', es', AdoptNow);
  }

  /**
   A first load, on any server with a position: it ends authoritative, with exactly the server's
   keys, at the server's position, and the disk then reads as that copy at that position.
   */
  lemma {:induction false} FirstLoad(sha: Sha, cfg: Config, hashes: set<Hash>, epoch: u64, form: Form)
    returns (ss: seq<Sys>, es: seq<Event>, b: seq<byte>)
    requires Served(form) && epoch != 0 && |hashes| < WORD
    ensures SysRun(sha, cfg, ss, es)
    ensures var s := ss[|ss| - 1];
            && Fits(s.r) && NoCollision(sha, s.blobs)
            && s.disk.blob == Some(b) && Accepted(sha, b) && LongEnough(b) && ReadGen(s.disk.rec, b) == Gen(epoch, 0)
            && 0 in s.procs && s.procs[0].client.phase.Loaded? && s.procs[0].client.authoritative
            && s.procs[0].client.liveGen == Gen(epoch, 0)
            && s.procs[0].client.keys == View(KeysAt(hashes, KeysOf(sha, b).shift), KeysOf(sha, b).shift)
  {
    hide Accepted, KeysOf, LongEnough, ETag, Served, ServedAt;
    ss, es := LoadStarted(sha, cfg, hashes, epoch, form);
    var s := ss[|ss| - 1];
    assert Fits(s.r);
    assert Run(sha, cfg, s.r, s.steps) by { RunOfEmpty(sha, cfg, ss, es); }
    ReplyIsTrue(sha, cfg, s, 0);
    b := Answer(s, 0).0;
    hide KeysAt, SysRun;
    ss, es := LoadArrives(sha, cfg, ss, es);
    ReplayedNothing(KeysOf(sha, b));
  }

  lemma {:induction false} RunOfEmpty(sha: Sha, cfg: Config, ss: seq<Sys>, es: seq<Event>)
    requires SysRun(sha, cfg, ss, es) && Fits(ss[|ss| - 1].r) && ss[|ss| - 1].blobs == {}
    ensures Run(sha, cfg, ss[|ss| - 1].r, ss[|ss| - 1].steps)
  {
    hide SysRun, Fits, Run, TrueProc, TrueDisk, Shaped;
    assert |ss| > 0 by { NotEmpty(sha, cfg, ss, es); }
    RunKeeps(sha, cfg, ss, es, |ss| - 1);
  }

  lemma NotEmpty(sha: Sha, cfg: Config, ss: seq<Sys>, es: seq<Event>)
    requires SysRun(sha, cfg, ss, es)
    ensures |ss| > 0
  {
  }

  lemma ReplayedNothing(v: View)
    ensures Replayed(v, Journal({}, {})) == v
  {
    assert KeysAt({}, v.shift) == {};
  }
}
