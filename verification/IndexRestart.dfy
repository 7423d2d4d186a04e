/**
 A process that starts over a copy on disk: one delta brings it, and the copy, up to the server.
 */
module IndexRestart {
  import opened Options
  import opened Words
  import opened Gbci
  import opened IndexForms
  import opened KeySet
  import opened AddLog
  import opened ClientBlobs
  import opened IndexClient
  import opened IndexSystem
  import opened IndexRuns
  import opened IndexMoves

  /** The disk after some writes that all succeed. */
  ghost function Written(d: Disk, writes: seq<Write>): Disk
    decreases |writes|
  {
    if writes == [] then d else
    var next := match writes[0]
                case PutBlob(b) => d.(blob := Some(b))
                case PutRecord(rec) => d.(rec := Some(rec))
                case DropRecord => d.(rec := None);
    Written(next, writes[1..])
  }

  /** The copy on disk reads as being at a position. */
  ghost predicate ReadsAt(sha: Sha, d: Disk, g: Gen) {
    d.blob.Some? && Accepted(sha, d.blob.value) && LongEnough(d.blob.value) && ReadGen(d.rec, d.blob.value) == g
  }

  /**
   What a delta leaves on disk: an empty one moves the copy's position, one of 16384 keys or more
   makes a new copy at its position, and any other leaves the disk as it was.
   */
  lemma {:induction false} PersistReads(sha: Sha, d: Disk, base: seq<byte>, added: View, to: Gen)
    requires d.blob == Some(base) && Accepted(sha, base) && LongEnough(base) && to.epoch != 0
    requires var all := KeysOf(sha, base).PlusAll(added); all.Masks() && all.shift <= 32 && |all.members| < WORD
    ensures var d' := Written(d, Persist(sha, base, added, to));
            && (added.members == {} ==> d'.blob == d.blob && ReadsAt(sha, d', to))
            && (|added.members| >= 16384 ==>
                  ReadsAt(sha, d', to) && KeysOf(sha, d'.blob.value) == KeysOf(sha, base).PlusAll(added))
            && (0 < |added.members| < 16384 ==> d' == d)
  {
    hide Accepted, KeysOf, View.Masks, MarshalView, View.PlusAll, ETag, LongEnough;
    var all := KeysOf(sha, base).PlusAll(added);
    var writes := Persist(sha, base, added, to);
    if |added.members| >= PERSIST_DELTA_MIN {
      ViewRoundTrip(sha, all);
      KeysOfMasks(sha, MarshalView(sha, all));
      TwoWrites(d, writes[0], writes[1]);
    } else if added.members == {} {
      OneWrite(d, writes[0]);
    }
  }

  lemma OneWrite(d: Disk, a: Write)
    requires a.PutRecord?
    ensures Written(d, [a]) == d.(rec := Some(a.rec))
  {
    assert [a][1..] == [];
  }

  lemma TwoWrites(d: Disk, a: Write, b: Write)
    requires a.PutBlob? && b.PutRecord?
    ensures Written(d, [a, b]) == Disk(Some(a.blob), Some(b.rec))
  {
    assert [a, b][1..] == [b];
    OneWrite(d.(blob := Some(a.blob)), b);
  }

  /** The process finishes its writes. */
  lemma {:induction false} FlushAll(sha: Sha, cfg: Config, ss: seq<Sys>, es: seq<Event>, n: nat)
    returns (ss': seq<Sys>, es': seq<Event>)
    requires SysRun(sha, cfg, ss, es) && |ss| > 0 && n in ss[|ss| - 1].procs && Shaped(sha, ss[|ss| - 1].procs[n])
    ensures SysRun(sha, cfg, ss', es') && |ss'| > 0
    ensures var s, s' := ss[|ss| - 1], ss'[|ss'| - 1];
            && s'.r == s.r && n in s'.procs && s'.procs[n].client == s.procs[n].client
            && s'.disk == Written(s.disk, s.procs[n].writes)
    decreases |ss[|ss| - 1].procs[n].writes|
  {
    hide SysRun, Accepted, LongEnough;
    ss', es' := ss, es;
    var s := ss[|ss| - 1];
    if s.procs[n].writes != [] {
      ss', es' := DoNext(sha, cfg, ss, es, n, IndexSystem.Flush);
      ss', es' := FlushAll(sha, cfg, ss', es', n);
    }
  }

  /** A new process reads the copy and its record, and starts. */
  lemma {:induction false} CopyLoads(sha: Sha, cfg: Config, ss: seq<Sys>, es: seq<Event>, n: nat, young: bool)
    returns (ss': seq<Sys>, es': seq<Event>)
    requires SysRun(sha, cfg, ss, es) && |ss| > 0 && n in ss[|ss| - 1].procs && ss[|ss| - 1].procs[n] == NEW_PROC
    requires var d := ss[|ss| - 1].disk;
             && d.blob.Some? && Accepted(sha, d.blob.value) && LongEnough(d.blob.value)
             && Somewhere(ReadGen(d.rec, d.blob.value))
    ensures SysRun(sha, cfg, ss', es') && |ss'| > 0
    ensures var s, s' := ss[|ss| - 1], ss'[|ss'| - 1]; var b := s.disk.blob.value; var g := ReadGen(s.disk.rec, b);
            && s'.r == s.r && s'.steps == s.steps && s'.disk == s.disk && s'.blobs == s.blobs && n in s'.procs
            && s'.procs[n] == Proc(NEW_CLIENT.(keys := KeysOf(sha, b), journal := Journal({}, {}),
                                               phase := Loading(KeysOf(sha, b), g)),
                                   Idle, Some(b), [])
  {
    hide SysRun, Accepted, LongEnough, KeysOf, ReadGen;
    ss', es' := DoNext(sha, cfg, ss, es, n, ReadBlob);
    ss', es' := DoNext(sha, cfg, ss', es', n, ReadRecord);
    ss', es' := DoNext(sha, cfg, ss', es', n, Begin(young));
  }

  /** The delta arrives: the client, and what it leaves to write. */
  lemma {:induction false} DeltaLoads(sha: Sha, cfg: Config, ss: seq<Sys>, es: seq<Event>, n: nat, j: nat, form: Form)
    returns (ss': seq<Sys>, es': seq<Event>, added: View)
    requires SysRun(sha, cfg, ss, es) && |ss| > 0 && n in ss[|ss| - 1].procs && Shaped(sha, ss[|ss| - 1].procs[n])
    requires ss[|ss| - 1].procs[n].client.phase.Loading? && ss[|ss| - 1].procs[n].writes == []
    requires ss[|ss| - 1].procs[n].hand.Idle?
    requires DeltaAt(sha, ss[|ss| - 1], ss[|ss| - 1].procs[n].client.phase.from, j, form)
    ensures SysRun(sha, cfg, ss', es') && |ss'| > 0
    ensures var s, s' := ss[|ss| - 1], ss'[|ss'| - 1]; var p, to := s.procs[n], s.r[j].Position();
            && s'.r == s.r && s'.disk == s.disk && n in s'.procs && Shaped(sha, s'.procs[n])
            && s'.procs[n].client.authoritative && s'.procs[n].client.phase.Loaded? && s'.procs[n].client.liveGen == to
            && added == DeltaView(sha, s, p.client.phase.from, j, form)
            && KeysOf(sha, p.base.value).PlusAll(added).Masks() && KeysOf(sha, p.base.value).PlusAll(added).shift <= 32
            && s'.procs[n].writes == Persist(sha, p.base.value, added, to)
  {
    hide SysRun, Accepted, LongEnough, KeysOf, View.PlusAll, Persist, DeltaBlob, Served;
    var s := ss[|ss| - 1];
    var p := s.procs[n];
    added := DeltaView(sha, s, p.client.phase.from, j, form);
    PersistWellFormed(sha, p.base.value, DeltaBlob(sha, s.r[j], p.client.phase.from, form));
    ss', es' := DoNext(sha, cfg, ss, es, n, DeltaReply(j, form));
  }

  /**
   From any state of any run: a new process over a copy at a position of the server's current epoch
   becomes authoritative at the server's current position with one delta, and if its writes succeed
   the disk reads as a copy at that position, unless the delta has some but fewer than 16384 keys,
   when it stays as it was.
   */
  lemma {:induction false} RestartCatchesUp(sha: Sha, cfg: Config, ss: seq<Sys>, es: seq<Event>, n: nat, young: bool,
                                            form: Form)
    returns (ss': seq<Sys>, es': seq<Event>, added: View)
    requires SysRun(sha, cfg, ss, es) && Fits(ss[|ss| - 1].r) && NoCollision(sha, ss[|ss| - 1].blobs) && Served(form)
    requires n in ss[|ss| - 1].procs && ss[|ss| - 1].procs[n] == NEW_PROC && |ss[|ss| - 1].r| > 0
    requires var s := ss[|ss| - 1];
             && s.disk.blob.Some? && Accepted(sha, s.disk.blob.value) && LongEnough(s.disk.blob.value)
             && var from := ReadGen(s.disk.rec, s.disk.blob.value);
             from.epoch == s.r[|s.r| - 1].epoch != 0 && from.pos <= |s.r[|s.r| - 1].added|
    ensures SysRun(sha, cfg, ss', es') && |ss'| > 0 && ss'[|ss'| - 1].r == ss[|ss| - 1].r
    ensures var s := ss[|ss| - 1]; var delta := DeltaBlob(sha, s.r[|s.r| - 1], ReadGen(s.disk.rec, s.disk.blob.value), form);
            Accepted(sha, delta) && added == KeysOf(sha, delta)
    ensures var s' := ss'[|ss'| - 1];
            && n in s'.procs && s'.procs[n].client.authoritative && s'.procs[n].client.phase.Loaded?
            && s'.procs[n].client.liveGen == s'.r[|s'.r| - 1].Position()
            && (if 0 < |added.members| < 16384 then s'.disk == ss[|ss| - 1].disk
                else ReadsAt(sha, s'.disk, s'.r[|s'.r| - 1].Position()))
  {
    hide SysRun, Accepted, LongEnough, KeysOf, View.PlusAll, Persist, DeltaBlob, Served, NoCollision, Fits, ReadGen, Run;
    hide TrueView, View.Masks, Written, TrueProc, ReadsAt;
    assert |ss| > 0 by { NotEmpty(sha, cfg, ss, es); }
    RunKeeps(sha, cfg, ss, es, |ss| - 1);
    var s := ss[|ss| - 1];
    var j, b := |s.r| - 1, s.disk.blob.value;
    var from := ReadGen(s.disk.rec, b);
    ss', es' := CopyLoads(sha, cfg, ss, es, n, young);
    DeltaIsAccepted(sha, s, from, j, form);
    ss', es', added := DeltaLoads(sha, cfg, ss', es', n, j, form);
    ghost var mid := ss'[|ss'| - 1];
    JoinedSize(sha, cfg, s, b, from, j, form);
    PersistReads(sha, mid.disk, b, added, s.r[j].Position());
    ss', es' := FlushAll(sha, cfg, ss', es', n);
  }

  lemma {:induction false} JoinedSize(sha: Sha, cfg: Config, s: Sys, b: seq<byte>, from: Gen, j: nat, form: Form)
    requires Inv(sha, cfg, s) && Fits(s.r) && NoCollision(sha, s.blobs) && s.disk.blob == Some(b)
    requires Accepted(sha, b) && LongEnough(b) && from == ReadGen(s.disk.rec, b) && DeltaAt(sha, s, from, j, form)
    ensures |KeysOf(sha, b).PlusAll(DeltaView(sha, s, from, j, form)).members| < WORD && s.r[j].Position().epoch != 0
  {
    hide Accepted, LongEnough, KeysOf, View.PlusAll, DeltaBlob, Served, NoCollision, Fits, ReadGen, Run, TrueView;
    hide TrueProc, TrueRecord, View.Masks;
    ReadIsTrue(sha, s.r, s.blobs, s.disk, b);
    KeysOfMasks(sha, b);
    DeltaIsTrue(sha, cfg, s, from, j, form, KeysOf(sha, b));
    TrueViewSize(s.r, s.r[j].Position(), KeysOf(sha, b).PlusAll(DeltaView(sha, s, from, j, form)));
  }
}
