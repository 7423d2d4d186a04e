/**
 The whole system: one server over all its restarts, the two files on disk, and any number of
 client processes that read and write those files without a common transaction.

 A reply is any answer the server gave at some state of its run; it may arrive late. A process
 performs its file writes one at a time, any of them may fail, and it may stop between any two.
 */
module IndexSystem {
  import opened Options
  import opened Words
  import opened Sorted
  import opened Prefixes
  import opened Gbci
  import opened IndexForms
  import opened KeySet
  import opened AddLog
  import opened ClientBlobs
  import opened IndexClient

  /** The .gen file: a position and the ETag of the copy it belongs to. */
  datatype Record = Record(tag: seq<byte>, gen: Gen)

  datatype Disk = Disk(blob: Option<seq<byte>>, rec: Option<Record>)

  datatype Write = PutBlob(blob: seq<byte>) | PutRecord(rec: Record) | DropRecord

  /** What a process last read from disk. */
  datatype Hand = Idle | NoCopy | BlobRead(blob: seq<byte>) | CopyRead(blob: seq<byte>, gen: Gen)

  /** base is the copy the load started from. */
  datatype Proc = Proc(client: Client, hand: Hand, base: Option<seq<byte>>, writes: seq<Write>)

  const NEW_PROC := Proc(NEW_CLIENT, Idle, None, [])

  /** blobs is every blob a reply, a file or a process has held; no code reads it. */
  datatype Sys = Sys(r: seq<State>, steps: seq<Step>, disk: Disk, blobs: set<seq<byte>>, procs: map<nat, Proc>)

  const PERSIST_DELTA_MIN := 16384

  /** The position a header carries: a zero epoch is not sent. */
  function OnWire(g: Gen): Gen {
    if g.epoch == 0 then NOWHERE else g
  }

  /** writeIndexGen: a copy with no position loses its record. */
  function RecordWrite(blob: seq<byte>, g: Gen): Write
    requires LongEnough(blob)
  {
    if Somewhere(g) then PutRecord(Record(ETag(blob), g)) else DropRecord
  }

  /** readIndexGen: a record written for another copy does not count. */
  function ReadGen(rec: Option<Record>, blob: seq<byte>): Gen
    requires LongEnough(blob)
  {
    if rec.Some? && rec.value.tag == ETag(blob) && Somewhere(rec.value.gen) then rec.value.gen else NOWHERE
  }

  /** persistDelta: small deltas are not worth a rewrite, empty ones move the position. */
  ghost function Persist(sha: Sha, base: seq<byte>, added: View, to: Gen): seq<Write>
    requires Accepted(sha, base) && KeysOf(sha, base).PlusAll(added).Masks() && KeysOf(sha, base).PlusAll(added).shift <= 32
    requires LongEnough(base)
  {
    if added.members == {} then [RecordWrite(base, to)]
    else if |added.members| < PERSIST_DELTA_MIN then []
    else
      var merged := MarshalView(sha, KeysOf(sha, base).PlusAll(added));
      [PutBlob(merged), RecordWrite(merged, to)]
  }

  /** v is what the server advertised at g, on the bits v keeps. */
  ghost predicate TrueView(r: seq<State>, g: Gen, v: View) {
    exists i | 0 <= i < |r| :: r[i].Position() == g && v.members == KeysAt(r[i].Advertised(), v.shift)
  }

  /** A record is true of some blob it was written for. */
  ghost predicate TrueRecord(sha: Sha, r: seq<State>, blobs: set<seq<byte>>, rec: Record) {
    && Somewhere(rec.gen)
    && exists b | b in blobs :: RecordOf(sha, r, b, rec)
  }

  ghost predicate RecordOf(sha: Sha, r: seq<State>, b: seq<byte>, rec: Record) {
    Accepted(sha, b) && LongEnough(b) && ETag(b) == rec.tag && TrueView(r, rec.gen, KeysOf(sha, b))
  }

  /** SHA-256 tells apart the accepted blobs of this run. */
  ghost predicate NoCollision(sha: Sha, blobs: set<seq<byte>>) {
    forall a, b | a in blobs && b in blobs && Accepted(sha, a) && Accepted(sha, b) && LongEnough(a) && LongEnough(b)
                  && ETag(a) == ETag(b) :: a == b
  }

  /** The set this client holds is what its position says, but for what it claimed and dropped. */
  ghost predicate Complete(r: seq<State>, c: Client) {
    exists v: View :: v.Masks() && TrueView(r, c.liveGen, v) && Stands(c.keys, v, c.claimed, c.dropped)
  }

  ghost predicate TrueHand(sha: Sha, r: seq<State>, blobs: set<seq<byte>>, hand: Hand) {
    match hand
    case Idle => true
    case NoCopy => true
    case BlobRead(b) => b in blobs && Accepted(sha, b) && LongEnough(b)
    case CopyRead(b, g) =>
      b in blobs && Accepted(sha, b) && LongEnough(b) && (Somewhere(g) ==> TrueView(r, g, KeysOf(sha, b)))
  }

  ghost predicate TrueLoad(sha: Sha, r: seq<State>, blobs: set<seq<byte>>, p: Proc) {
    match p.client.phase
    case NotLoaded => true
    case Loading(copy, from) =>
      && (p.base.Some? ==>
            && p.base.value in blobs && Accepted(sha, p.base.value) && LongEnough(p.base.value)
            && copy == KeysOf(sha, p.base.value))
      && (p.base.None? ==> !Somewhere(from))
      && (Somewhere(from) ==> TrueView(r, from, copy))
    case Arrived(copy, outcome, confirmed) =>
      && (Somewhere(p.client.liveGen) && outcome.LiveSet? ==> TrueView(r, p.client.liveGen, copy))
      && (Somewhere(p.client.liveGen) && outcome.NewSet? ==> TrueView(r, p.client.liveGen, outcome.keys))
    case Loaded => Somewhere(p.client.liveGen) ==> Complete(r, p.client)
  }

  ghost predicate TrueWrite(sha: Sha, r: seq<State>, blobs: set<seq<byte>>, w: Write) {
    match w
    case PutBlob(b) => b in blobs
    case PutRecord(rec) => TrueRecord(sha, r, blobs, rec)
    case DropRecord => true
  }

  ghost predicate TrueProc(sha: Sha, r: seq<State>, blobs: set<seq<byte>>, p: Proc) {
    && Coherent(p.client)
    && TrueHand(sha, r, blobs, p.hand)
    && TrueLoad(sha, r, blobs, p)
    && forall i | 0 <= i < |p.writes| :: TrueWrite(sha, r, blobs, p.writes[i])
  }

  ghost predicate TrueDisk(sha: Sha, r: seq<State>, blobs: set<seq<byte>>, d: Disk) {
    && (d.blob.Some? ==> d.blob.value in blobs)
    && (d.rec.Some? ==> TrueRecord(sha, r, blobs, d.rec.value))
  }

  ghost predicate Inv(sha: Sha, cfg: Config, s: Sys) {
    && Run(sha, cfg, s.r, s.steps)
    && TrueDisk(sha, s.r, s.blobs, s.disk)
    && forall n | n in s.procs :: TrueProc(sha, s.r, s.blobs, s.procs[n])
  }

  /** Counts the source keeps in a machine word stay below 2^64. */
  ghost predicate Fits(r: seq<State>) {
    forall i | 0 <= i < |r| :: |r[i].Advertised()| < WORD && |r[i].added| < WORD
  }

  // What a process does next.
  datatype Action =
    | ReadBlob | ReadRecord | Begin(young: bool)
    | FullReply(j: nat) | NotModified(j: nat) | OtherRefresh | LoadFails | LoadCancelled | AdoptNow
    | DeltaReply(j: nat, form: Form) | DeltaFails(young: bool)
    | Ask | LiveReply(j: nat, form: Form) | LiveEnds | LiveFails
    | ClaimKey(h: Hash) | DropKey(h: Hash)
    | Flush | FlushFails | Crash

  ghost predicate ServedAt(s: Sys, j: nat) {
    j < |s.steps| && |s.r| == |s.steps| + 1 && s.steps[j].Serve? && s.steps[j].form in s.r[j + 1].forms
  }

  ghost function Answer(s: Sys, j: nat): (seq<byte>, Gen)
    requires ServedAt(s, j)
  {
    Reply(s.r[j + 1], s.steps[j].form)
  }

  ghost predicate DeltaAt(sha: Sha, s: Sys, from: Gen, j: nat, form: Form) {
    && j < |s.r| && Served(form) && Somewhere(from) && Answers(s.r[j], from)
    && Accepted(sha, DeltaBlob(sha, s.r[j], from, form))
  }

  ghost function DeltaView(sha: Sha, s: Sys, from: Gen, j: nat, form: Form): View
    requires DeltaAt(sha, s, from, j, form)
  {
    KeysOf(sha, DeltaBlob(sha, s.r[j], from, form))
  }

  /** When the source can take the action. */
  ghost predicate Enabled(sha: Sha, s: Sys, p: Proc, a: Action) {
    var c := p.client;
    match a
    case ReadBlob => c.phase.NotLoaded? || c.phase.Loading?
    case ReadRecord => p.hand.BlobRead?
    case Begin(_) => c.phase.NotLoaded? && (p.hand.NoCopy? || p.hand.CopyRead?)
    case FullReply(j) => c.phase.Loading? && ServedAt(s, j) && Accepted(sha, Answer(s, j).0)
    case NotModified(j) =>
      && c.phase.Loading? && ServedAt(s, j) && p.base.Some? && LongEnough(p.base.value)
      && LongEnough(Answer(s, j).0) && ETag(Answer(s, j).0) == ETag(p.base.value)
    case OtherRefresh => c.phase.Loading? && p.hand.CopyRead?
    case LoadFails => c.phase.Loading?
    case LoadCancelled => c.phase.Loading?
    case AdoptNow => c.phase.Arrived?
    case DeltaReply(j, form) => c.phase.Loading? && DeltaAt(sha, s, c.phase.from, j, form)
    case DeltaFails(_) => c.phase.Loading? && Somewhere(c.phase.from)
    case Ask => c.phase.Loaded? && MayAsk(c) && !c.asking
    case LiveReply(j, form) => c.asking && DeltaAt(sha, s, c.liveGen, j, form)
    case LiveEnds => c.asking
    case LiveFails => c.asking
    case ClaimKey(_) => !c.phase.NotLoaded?
    case DropKey(_) => !c.phase.NotLoaded?
    case Flush => p.writes != []
    case FlushFails => p.writes != []
    case Crash => true
  }

  /** A process holds only blobs it has parsed, and a load keeps a journal. Every reachable one is shaped so. */
  ghost predicate Shaped(sha: Sha, p: Proc) {
    && (p.hand.BlobRead? || p.hand.CopyRead? ==> Accepted(sha, p.hand.blob) && LongEnough(p.hand.blob))
    && (p.client.phase.Loading? && p.base.Some? ==> Accepted(sha, p.base.value) && LongEnough(p.base.value))
    && (p.client.phase.Loading? && Somewhere(p.client.phase.from) ==> p.base.Some?)
    && (p.client.phase.Loading? || p.client.phase.Arrived? ==> p.client.journal.Journal?)
  }

  /** A delta installs in one step; what it leaves to write follows. */
  ghost function AfterDelta(sha: Sha, s: Sys, p: Proc, j: nat, form: Form): Proc
    requires Enabled(sha, s, p, DeltaReply(j, form)) && Shaped(sha, p)
  {
    var c := p.client;
    var added, to := DeltaView(sha, s, c.phase.from, j, form), OnWire(s.r[j].Position());
    PersistWellFormed(sha, p.base.value, DeltaBlob(sha, s.r[j], c.phase.from, form));
    p.(client := InstallDelta(c, added, to), writes := p.writes + Persist(sha, p.base.value, added, to))
  }

  /** A whole index is written to disk and waits to be adopted. */
  ghost function AfterReply(sha: Sha, p: Proc, b: seq<byte>, g: Gen): Proc
    requires p.client.phase.Loading? && Accepted(sha, b)
  {
    KeysOfMasks(sha, b);
    p.(client := Arrive(p.client, NewSet(KeysOf(sha, b)), true, g), writes := p.writes + [PutBlob(b), RecordWrite(b, g)])
  }

  ghost function AfterBegin(sha: Sha, p: Proc, young: bool): Proc
    requires p.client.phase.NotLoaded? && (p.hand.NoCopy? || p.hand.CopyRead?) && Shaped(sha, p)
  {
    if p.hand.NoCopy? then p.(client := Start(p.client, false, EMPTY, NOWHERE, young), base := None, hand := Idle)
    else
      p.(client := Start(p.client, true, KeysOf(sha, p.hand.blob), p.hand.gen, young),
         base := Some(p.hand.blob), hand := Idle)
  }

  ghost function AfterNotModified(p: Proc, g: Gen): Proc
    requires p.client.phase.Loading? && p.base.Some? && LongEnough(p.base.value)
  {
    p.(client := Arrive(p.client, LiveSet, true, g), writes := p.writes + [RecordWrite(p.base.value, g)])
  }

  ghost function AfterLive(sha: Sha, s: Sys, p: Proc, j: nat, form: Form): Proc
    requires p.client.asking && DeltaAt(sha, s, p.client.liveGen, j, form)
  {
    p.(client := LiveDelta(p.client, DeltaView(sha, s, p.client.liveGen, j, form), OnWire(s.r[j].Position())))
  }

  /** The actions of a load. */
  predicate Loads(a: Action) {
    || a.ReadBlob? || a.ReadRecord? || a.Begin? || a.FullReply? || a.NotModified? || a.OtherRefresh?
    || a.LoadFails? || a.LoadCancelled? || a.AdoptNow? || a.DeltaReply? || a.DeltaFails?
  }

  ghost function AfterLoad(sha: Sha, s: Sys, p: Proc, a: Action): Proc
    requires Enabled(sha, s, p, a) && Shaped(sha, p) && Loads(a)
  {
    var c := p.client;
    match a
    case ReadBlob =>
      p.(hand := if s.disk.blob.Some? && Accepted(sha, s.disk.blob.value) then BlobRead(s.disk.blob.value) else NoCopy)
    case ReadRecord => p.(hand := CopyRead(p.hand.blob, ReadGen(s.disk.rec, p.hand.blob)))
    case Begin(young) => AfterBegin(sha, p, young)
    case FullReply(j) => AfterReply(sha, p, Answer(s, j).0, OnWire(Answer(s, j).1))
    case NotModified(j) => AfterNotModified(p, OnWire(Answer(s, j).1))
    case OtherRefresh => p.(client := Arrive(c, NewSet(KeysOf(sha, p.hand.blob)), true, p.hand.gen))
    case LoadFails => p.(client := Arrive(c, if p.base.Some? then LiveSet else NewSet(EMPTY), false, NOWHERE))
    case LoadCancelled => p.(client := Arrive(c, Nothing, false, NOWHERE))
    case AdoptNow => p.(client := Adopt(c))
    case DeltaReply(j, form) => AfterDelta(sha, s, p, j, form)
    case DeltaFails(young) => p.(client := KeepCopy(c, young))
  }

  /** The process after the action. */
  ghost function After(sha: Sha, s: Sys, p: Proc, a: Action): Proc
    requires Enabled(sha, s, p, a) && Shaped(sha, p)
  {
    var c := p.client;
    if Loads(a) then AfterLoad(sha, s, p, a) else
    match a
    case Ask => p.(client := c.(asking := true))
    case LiveReply(j, form) => AfterLive(sha, s, p, j, form)
    case LiveEnds => p.(client := LiveGone(c))
    case LiveFails => p.(client := c.(asking := false))
    case ClaimKey(h) => p.(client := Claim(c, h))
    case DropKey(h) => p.(client := Drop(c, h))
    case Flush => p.(writes := p.writes[1..])
    case FlushFails => p.(writes := p.writes[1..])
    case Crash => NEW_PROC
  }

  lemma {:induction false} PersistWellFormed(sha: Sha, base: seq<byte>, delta: seq<byte>)
    requires Accepted(sha, base) && Accepted(sha, delta)
    ensures LongEnough(base)
    ensures var v := KeysOf(sha, base).PlusAll(KeysOf(sha, delta)); v.Masks() && v.shift <= 32
  {
    hide Accepted, KeysOf, Narrowed;
    KeysOfMasks(sha, base);
    KeysOfMasks(sha, delta);
    var a, b := KeysOf(sha, base), KeysOf(sha, delta);
    JoinIsImage(a, b);
    NarrowedMasks(a.members + b.members, a.PlusAll(b).shift);
  }

  /** The disk after the action: only a flush that works changes it. */
  ghost function DiskAfter(s: Sys, p: Proc, a: Action): Disk
    requires a.Flush? ==> p.writes != []
  {
    if !a.Flush? then s.disk else
    match p.writes[0]
    case PutBlob(b) => s.disk.(blob := Some(b))
    case PutRecord(rec) => s.disk.(rec := Some(rec))
    case DropRecord => s.disk.(rec := None)
  }

  /** The blobs the action brings into the run. */
  ghost function BlobsOf(sha: Sha, s: Sys, p: Proc, a: Action): set<seq<byte>>
    requires Enabled(sha, s, p, a) && Shaped(sha, p)
  {
    match a
    case FullReply(j) => {Answer(s, j).0}
    case NotModified(j) => {Answer(s, j).0}
    case DeltaReply(j, form) => set w | w in After(sha, s, p, a).writes && w.PutBlob? :: w.blob
    case _ => {}
  }

  // What stays true when the run and the blobs grow.

  lemma GrowView(r: seq<State>, r': seq<State>, g: Gen, v: View)
    requires r <= r' && TrueView(r, g, v)
    ensures TrueView(r', g, v)
  {
    var i :| 0 <= i < |r| && r[i].Position() == g && v.members == KeysAt(r[i].Advertised(), v.shift);
    assert r'[i] == r[i];
  }

  lemma GrowRecord(sha: Sha, r: seq<State>, r': seq<State>, blobs: set<seq<byte>>, blobs': set<seq<byte>>, rec: Record)
    requires r <= r' && blobs <= blobs' && TrueRecord(sha, r, blobs, rec)
    ensures TrueRecord(sha, r', blobs', rec)
  {
    hide TrueView, Accepted, KeysOf;
    var b :| b in blobs && RecordOf(sha, r, b, rec);
    GrowView(r, r', rec.gen, KeysOf(sha, b));
  }

  lemma GrowComplete(r: seq<State>, r': seq<State>, c: Client)
    requires r <= r' && Complete(r, c)
    ensures Complete(r', c)
  {
    hide TrueView, Stands;
    var v: View :| v.Masks() && TrueView(r, c.liveGen, v) && Stands(c.keys, v, c.claimed, c.dropped);
    GrowView(r, r', c.liveGen, v);
  }

  lemma {:induction false} GrowProc(sha: Sha, r: seq<State>, r': seq<State>, blobs: set<seq<byte>>,
                                    blobs': set<seq<byte>>, p: Proc)
    requires r <= r' && blobs <= blobs' && TrueProc(sha, r, blobs, p)
    ensures TrueProc(sha, r', blobs', p)
  {
    hide TrueView, Accepted, KeysOf, Complete, TrueRecord, Coherent;
    if p.hand.CopyRead? && Somewhere(p.hand.gen) { GrowView(r, r', p.hand.gen, KeysOf(sha, p.hand.blob)); }
    match p.client.phase {
      case NotLoaded =>
      case Loading(copy, from) => if Somewhere(from) { GrowView(r, r', from, copy); }
      case Arrived(copy, outcome, _) =>
        if Somewhere(p.client.liveGen) && outcome.LiveSet? { GrowView(r, r', p.client.liveGen, copy); }
        if Somewhere(p.client.liveGen) && outcome.NewSet? { GrowView(r, r', p.client.liveGen, outcome.keys); }
      case Loaded => if Somewhere(p.client.liveGen) { GrowComplete(r, r', p.client); }
    }
    forall i | 0 <= i < |p.writes|
      ensures TrueWrite(sha, r', blobs', p.writes[i])
    {
      assert TrueWrite(sha, r, blobs, p.writes[i]);
      if p.writes[i].PutRecord? { GrowRecord(sha, r, r', blobs, blobs', p.writes[i].rec); }
    }
  }

  lemma GrowDisk(sha: Sha, r: seq<State>, r': seq<State>, blobs: set<seq<byte>>, blobs': set<seq<byte>>, d: Disk)
    requires r <= r' && blobs <= blobs' && TrueDisk(sha, r, blobs, d)
    ensures TrueDisk(sha, r', blobs', d)
  {
    hide TrueRecord;
    if d.rec.Some? { GrowRecord(sha, r, r', blobs, blobs', d.rec.value); }
  }

  // What replies and files are worth.

  /** A whole index in a reply is what the server advertised at the position it names. */
  lemma {:induction false} ReplyIsTrue(sha: Sha, cfg: Config, s: Sys, j: nat)
    requires Run(sha, cfg, s.r, s.steps) && Fits(s.r) && ServedAt(s, j)
    ensures var (b, g) := Answer(s, j);
            Accepted(sha, b) && LongEnough(b) && TrueView(s.r, g, KeysOf(sha, b))
  {
    hide Run, Serialize, ParseBlob, KeysAt;
    var i := ServedBlobIsTrue(sha, cfg, s.r, s.steps, j);
    KeysOfMasks(sha, Answer(s, j).0);
  }

  /** What a delta holds: the tail of the log, at the width asked for. */
  lemma {:induction false} DeltaHolds(sha: Sha, s: Sys, from: Gen, j: nat, form: Form)
    requires Fits(s.r) && DeltaAt(sha, s, from, j, form)
    ensures var added := DeltaView(sha, s, from, j, form);
            && added.Masks() && added.shift == FormShift(form) <= 64
            && added.members == KeysAt(Elements(s.r[j].added[from.pos..]), added.shift)
  {
    hide Serialize, ParseBlob, KeysAt;
    var tail := s.r[j].added[from.pos..];
    ElementsSize(tail);
    Decodes(sha, Elements(tail), form);
    KeysOfMasks(sha, DeltaBlob(sha, s.r[j], from, form));
  }

  lemma KeysOfSome(hashes: set<Hash>, shift: nat, h: Hash)
    requires h in hashes
    ensures KeysAt(hashes, shift) != {}
  {
    assert KeyAt(h, shift) in KeysAt(hashes, shift);
  }

  /** A delta joined to a true view at its start is a true view at its end. */
  lemma {:induction false} DeltaIsTrue(sha: Sha, cfg: Config, s: Sys, from: Gen, j: nat, form: Form, v: View)
    requires Run(sha, cfg, s.r, s.steps) && Fits(s.r) && DeltaAt(sha, s, from, j, form)
    requires v.Masks() && TrueView(s.r, from, v)
    ensures var added := DeltaView(sha, s, from, j, form);
            && added.Masks() && v.PlusAll(added).Masks()
            && TrueView(s.r, s.r[j].Position(), v.PlusAll(added))
            && (added.members == {} ==> TrueView(s.r, s.r[j].Position(), v))
  {
    hide Run, DeltaBlob, ParseBlob, KeysAt, Narrowed, Answers, Masked;
    var added := DeltaView(sha, s, from, j, form);
    DeltaHolds(sha, s, from, j, form);
    var all := v.PlusAll(added);
    JoinIsImage(v, added);
    NarrowedMasks(v.members + added.members, all.shift);
    var i :| 0 <= i < |s.r| && s.r[i].Position() == from && v.members == KeysAt(s.r[i].Advertised(), v.shift);
    DeltaBringsCurrent(sha, cfg, s.r, s.steps, i, j, form, all.shift);
    NarrowedKeys(s.r[i].Advertised(), v.shift, all.shift);
    if added.members == {} { EmptyDelta(sha, cfg, s, i, j, form); }
  }

  /** A delta with no key adds no hash. */
  lemma {:induction false} EmptyDelta(sha: Sha, cfg: Config, s: Sys, i: nat, j: nat, form: Form)
    requires Run(sha, cfg, s.r, s.steps) && Fits(s.r) && i < |s.r|
    requires DeltaAt(sha, s, s.r[i].Position(), j, form) && DeltaView(sha, s, s.r[i].Position(), j, form).members == {}
    ensures s.r[i].Advertised() == s.r[j].Advertised()
  {
    hide Run, KeysAt, ParseBlob, DeltaBlob, Accepted, Served;
    var tail := s.r[j].added[|s.r[i].added|..];
    DeltaReaches(sha, cfg, s.r, s.steps, i, j);
    DeltaHolds(sha, s, s.r[i].Position(), j, form);
    if tail != [] { KeysOfSome(Elements(tail), FormShift(form), tail[0]); }
  }

  /** The position read for a copy is a position of that copy. */
  lemma {:induction false} ReadIsTrue(sha: Sha, r: seq<State>, blobs: set<seq<byte>>, d: Disk, b: seq<byte>)
    requires TrueDisk(sha, r, blobs, d) && NoCollision(sha, blobs)
    requires b in blobs && Accepted(sha, b) && LongEnough(b)
    ensures Somewhere(ReadGen(d.rec, b)) ==> TrueView(r, ReadGen(d.rec, b), KeysOf(sha, b))
  {
    hide TrueView, Accepted, KeysOf, LongEnough;
    if Somewhere(ReadGen(d.rec, b)) {
      var rec := d.rec.value;
      var b0 :| b0 in blobs && RecordOf(sha, r, b0, rec);
    }
  }
}
