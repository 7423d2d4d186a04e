/**
 The index as a state machine: every change to the advertised hashes, the add log they are
 recorded in, and the cached blobs that may be served stale.

 Each locked section of the source is one step. A new epoch is random there; here it is any
 value the run has not used.
 */
module AddLog {
  import opened Words
  import opened Sorted
  import opened Prefixes
  import Gbci
  import opened IndexForms

  /** A key: an action hash when raw is empty, any other string otherwise. */
  datatype CompactKey = CompactKey(hash: Hash, raw: string)

  /** A position in the add log. */
  datatype Gen = Gen(epoch: u64, pos: nat)

  datatype Time = Never | At(t: int)

  datatype Cache = Cache(blob: seq<byte>, gen: Gen, builtAt: Time, mutation: nat)

  /** What does not change while the server runs. interval is the least age of a rebuilt blob. */
  datatype Config = Config(logLimit: nat, interval: int)

  const MAX_ADD_LOG := 0x10_0000

  function Limit(c: Config): nat {
    if c.logLimit == 0 then MAX_ADD_LOG else c.logLimit
  }

  /** master and pending are the sorted list and the buffer, as the sets they stand for. */
  datatype State = State(master: set<Hash>, pending: set<Hash>, mutations: nat, forms: map<Form, Cache>,
                         epoch: u64, added: seq<Hash>)
  {
    function Advertised(): set<Hash> { master + pending }

    function Position(): Gen { Gen(epoch, |added|) }
  }

  /** A new epoch: the log is empty, and no cached blob counts as young. */
  function Reset(s: State, draw: u64): State {
    s.(epoch := draw, added := [], mutations := s.mutations + 1,
       forms := map f | f in s.forms :: s.forms[f].(builtAt := Never))
  }

  predicate Servable(c: Config, s: State, form: Form, now: int) {
    form in s.forms &&
    var cache := s.forms[form];
    cache.mutation == s.mutations || (cache.builtAt.At? && now - cache.builtAt.t < c.interval)
  }

  datatype Step =
    | Put(key: CompactKey, draw: u64)
    | Remove(key: CompactKey, draw: u64)
    | RemoveKeys(keys: seq<CompactKey>, draw: u64)
    | Rebuild(walked: set<Hash>, draw: u64)
    | Serve(form: Form, now: int, done: int)
    | ClearForms
    | Restart(walked: set<Hash>, draw: u64)

  function Victims(keys: seq<CompactKey>): set<Hash> {
    set k | k in keys && k.raw == "" :: k.hash
  }

  ghost function Apply(sha: Gbci.Sha, c: Config, s: State, step: Step): State
    requires step.Serve? ==> Served(step.form)
  {
    match step
    case Put(k, draw) =>
      if k.raw != "" then s else
      var s := s.(pending := s.pending + {k.hash});
      var s := if |s.added| >= Limit(c) then Reset(s, draw) else s;
      s.(added := s.added + [k.hash], mutations := s.mutations + 1)
    case Remove(k, draw) =>
      if k.raw != "" then s else
      Reset(s.(master := s.master - {k.hash}, pending := s.pending - {k.hash}), draw)
    case RemoveKeys(keys, draw) =>
      var v := Victims(keys);
      if v == {} then s else Reset(s.(master := s.master - v, pending := s.pending - v), draw)
    case Rebuild(walked, draw) =>
      Reset(s.(master := walked, forms := map[]), draw)
    case Serve(form, now, done) =>
      if Servable(c, s, form, now) then s else
      var blob := Serialize(sha, s.Advertised(), form);
      s.(master := s.Advertised(), pending := {},
         forms := s.forms[form := Cache(blob, s.Position(), At(done), s.mutations)])
    case ClearForms => s.(forms := map[])
    case Restart(walked, draw) => State(walked, {}, 1, map[], draw, [])
  }

  ghost predicate Follows(sha: Gbci.Sha, c: Config, s: State, step: Step, s': State) {
    && (step.Serve? ==> Served(step.form))
    && s' == Apply(sha, c, s, step)
  }

  /** A run: each state follows from the one before, and a new epoch is new to the whole run. */
  ghost predicate Run(sha: Gbci.Sha, c: Config, r: seq<State>, steps: seq<Step>) {
    && |r| == |steps| + 1
    && r[0].forms == map[]
    && (forall i | 0 <= i < |steps| :: Follows(sha, c, r[i], steps[i], r[i + 1]))
    && (forall i, j | 0 <= j <= i < |steps| && Renews(c, r[i], steps[i]) :: r[j].epoch != r[i + 1].epoch)
  }

  /** The steps that draw a new epoch. */
  ghost predicate Renews(c: Config, s: State, step: Step) {
    match step
    case Put(k, _) => k.raw == "" && |s.added| >= Limit(c)
    case Remove(k, _) => k.raw == ""
    case RemoveKeys(keys, _) => Victims(keys) != {}
    case Rebuild(_, _) => true
    case Serve(_, _, _) => false
    case ClearForms => false
    case Restart(_, _) => true
  }

  /** Within an epoch a step only appends to the log, and the log says what it added. */
  lemma StepGrows(sha: Gbci.Sha, c: Config, s: State, step: Step)
    requires step.Serve? ==> Served(step.form)
    requires !Renews(c, s, step)
    ensures var s' := Apply(sha, c, s, step);
            && s'.epoch == s.epoch && s.added <= s'.added
            && s'.Advertised() == s.Advertised() + Elements(s'.added[|s.added|..])
            && s.mutations <= s'.mutations
            && (s'.mutations == s.mutations ==> s'.added == s.added)
  {
    var s' := Apply(sha, c, s, step);
    if s'.added == s.added { assert s'.added[|s.added|..] == []; }
    if step.Put? && step.key.raw == "" { assert s'.added[|s.added|..] == [step.key.hash]; }
  }

  /**
   Two states of one epoch: the later log extends the earlier one, and what it adds is exactly
   what the advertised set gained.
   */
  lemma {:induction false} EpochGrows(sha: Gbci.Sha, c: Config, r: seq<State>, steps: seq<Step>, i: nat, j: nat)
    requires Run(sha, c, r, steps) && i <= j < |r| && r[i].epoch == r[j].epoch
    ensures r[i].added <= r[j].added && r[i].mutations <= r[j].mutations
    ensures r[j].Advertised() == r[i].Advertised() + Elements(r[j].added[|r[i].added|..])
    ensures r[i].mutations == r[j].mutations ==> r[i].added == r[j].added
    decreases j - i
  {
    if i == j {
      assert r[j].added[|r[i].added|..] == [];
    } else {
      var k := j - 1;
      assert r[k + 1] == Apply(sha, c, r[k], steps[k]);
      assert r[k].epoch == r[j].epoch;
      EpochGrows(sha, c, r, steps, i, k);
      StepGrows(sha, c, r[k], steps[k]);
      var a, b, d := r[i].added, r[k].added, r[j].added;
      assert d[|a|..] == b[|a|..] + d[|b|..];
      ElementsConcat(b[|a|..], d[|b|..]);
    }
  }

  /** One position names one set. */
  lemma {:induction false} PositionNamesSet(sha: Gbci.Sha, c: Config, r: seq<State>, steps: seq<Step>, i: nat, j: nat)
    requires Run(sha, c, r, steps) && i < |r| && j < |r| && r[i].Position() == r[j].Position()
    ensures r[i].Advertised() == r[j].Advertised()
  {
    var a, b := if i <= j then i else j, if i <= j then j else i;
    EpochGrows(sha, c, r, steps, a, b);
    assert r[b].added[|r[a].added|..] == [];
  }

  /** Where a cached blob of the next state comes from: this step built it, or it was there before. */
  lemma StepKeepsCaches(sha: Gbci.Sha, c: Config, s: State, step: Step, s': State, form: Form)
    requires Follows(sha, c, s, step, s') && form in s'.forms
    ensures var cache := s'.forms[form];
            || (&& cache.gen == s.Position() == s'.Position() && cache.mutation == s.mutations == s'.mutations
                && Served(form) && cache.blob == Serialize(sha, s.Advertised(), form))
            || (&& form in s.forms && cache.(builtAt := s.forms[form].builtAt) == s.forms[form]
                && s.mutations <= s'.mutations
                && (cache.builtAt.At? ==> cache == s.forms[form] && !Renews(c, s, step))
                && (s.mutations == s'.mutations ==> !Renews(c, s, step)))
  {
  }

  /** A cached blob of state j is the blob of the set that state i advertised, at its position. */
  ghost predicate BuiltAt(sha: Gbci.Sha, r: seq<State>, i: nat, j: nat, form: Form)
    requires i <= j < |r| && form in r[j].forms
  {
    var cache := r[j].forms[form];
    && Served(form)
    && cache.gen == r[i].Position()
    && cache.blob == Serialize(sha, r[i].Advertised(), form)
    && cache.mutation <= r[j].mutations
    && (cache.builtAt.At? || cache.mutation == r[j].mutations ==> r[i].epoch == r[j].epoch)
    && (cache.mutation == r[j].mutations ==> r[i].Position() == r[j].Position())
  }

  /**
   In every run, every cached blob was the exact serialization of the advertised set at some
   earlier state, it names that state's position, and if it can still be served, stale or not,
   its epoch is the current one.
   */
  lemma {:induction false} CacheHasSource(sha: Gbci.Sha, c: Config, r: seq<State>, steps: seq<Step>, j: nat, form: Form)
    returns (i: nat)
    requires Run(sha, c, r, steps) && j < |r| && form in r[j].forms
    ensures i <= j && BuiltAt(sha, r, i, j, form)
  {
    hide Serialize, Served;
    var k := j - 1;
    assert Follows(sha, c, r[k], steps[k], r[j]);
    StepKeepsCaches(sha, c, r[k], steps[k], r[j], form);
    if r[j].forms[form].gen == r[k].Position() == r[j].Position() && r[j].forms[form].mutation == r[j].mutations
       && Served(form) && r[j].forms[form].blob == Serialize(sha, r[k].Advertised(), form) {
      i := k;
    } else {
      i := CacheHasSource(sha, c, r, steps, k, form);
      if !Renews(c, r[k], steps[k]) { StepGrows(sha, c, r[k], steps[k]); }
    }
  }

  /** What a request for the whole index is answered, once the step has run. */
  function Reply(s: State, form: Form): (r: (seq<byte>, Gen))
    requires form in s.forms
  {
    (s.forms[form].blob, s.forms[form].gen)
  }

  /**
   Any blob handed out, fresh or stale, by the read path or by the locked one, names the current
   epoch and decodes to exactly the advertised set as it was at the position it names.
   */
  lemma {:induction false} ServedBlobIsTrue(sha: Gbci.Sha, c: Config, r: seq<State>, steps: seq<Step>, j: nat)
    returns (i: nat)
    requires Run(sha, c, r, steps) && j < |steps| && steps[j].Serve?
    ensures i <= j && steps[j].form in r[j + 1].forms
    ensures var form := steps[j].form; var (blob, gen) := Reply(r[j + 1], form);
            && gen == r[i].Position() && gen.epoch == r[j].epoch && gen.pos <= |r[j].added|
            && blob == Serialize(sha, r[i].Advertised(), form)
            && r[i].Advertised() <= r[j].Advertised()
            && (|r[i].Advertised()| < WORD ==>
                 var d := ParseBlob(sha, blob);
                 d.Keys? && d.shift == FormShift(form) && Elements(d.keys) == KeysAt(r[i].Advertised(), d.shift))
  {
    hide Serialize, ParseBlob, KeysAt;
    var form := steps[j].form;
    assert Follows(sha, c, r[j], steps[j], r[j + 1]);
    if Servable(c, r[j], form, steps[j].now) {
      i := CacheHasSource(sha, c, r, steps, j, form);
    } else {
      i := j;
    }
    EpochGrows(sha, c, r, steps, i, j);
    if |r[i].Advertised()| < WORD { Decodes(sha, r[i].Advertised(), form); }
  }

  /** DeltaForm answers exactly the positions of the current epoch the log has reached. */
  predicate Answers(s: State, from: Gen) {
    from.epoch == s.epoch && from.pos <= |s.added|
  }

  ghost function DeltaBlob(sha: Gbci.Sha, s: State, from: Gen, form: Form): seq<byte>
    requires Answers(s, from) && Served(form)
  {
    Serialize(sha, Elements(s.added[from.pos..]), form)
  }

  /** What the advertised set gained since an answered position is exactly the tail of the log. */
  lemma {:induction false} DeltaReaches(sha: Gbci.Sha, c: Config, r: seq<State>, steps: seq<Step>, i: nat, j: nat)
    requires Run(sha, c, r, steps) && i < |r| && j < |r| && Answers(r[j], r[i].Position())
    ensures r[j].Advertised() == r[i].Advertised() + Elements(r[j].added[|r[i].added|..])
  {
    if i <= j {
      EpochGrows(sha, c, r, steps, i, j);
    } else {
      EpochGrows(sha, c, r, steps, j, i);
      assert r[i].added[|r[j].added|..] == [] && r[j].added[|r[i].added|..] == [];
    }
  }

  /**
   An answered delta brings any copy that was right at `from`, at any width at least as narrow as
   the delta's, to exactly the advertised set at the position it names.
   */
  lemma {:induction false} DeltaBringsCurrent(sha: Gbci.Sha, c: Config, r: seq<State>, steps: seq<Step>, i: nat,
                                              j: nat, form: Form, shift: nat)
    requires Run(sha, c, r, steps) && i < |r| && j < |r| && Answers(r[j], r[i].Position()) && Served(form)
    requires FormShift(form) <= shift <= 64 && |r[j].added| < WORD
    ensures var d := ParseBlob(sha, DeltaBlob(sha, r[j], r[i].Position(), form));
            && d.Keys? && d.shift == FormShift(form)
            && KeysAt(r[i].Advertised(), shift) + Narrowed(Elements(d.keys), shift) == KeysAt(r[j].Advertised(), shift)
  {
    hide Serialize, ParseBlob, KeysAt, Narrowed, Run, Elements;
    var tail := r[j].added[|r[i].added|..];
    DeltaReaches(sha, c, r, steps, i, j);
    ElementsSize(tail);
    Decodes(sha, Elements(tail), form);
    NarrowedKeys(Elements(tail), FormShift(form), shift);
    KeysUnion(r[i].Advertised(), Elements(tail), shift);
  }
}
