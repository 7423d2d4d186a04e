/**
 What whole runs of the index promise beyond the truth of a blob: how old one may be, how often one
 is built, which steps end an epoch, and which hashes are advertised.
 */
module AddLogRuns {
  import Sorted
  import opened Prefixes
  import opened IndexForms
  import opened AddLog
  import Gbci

  // How old a blob may be.

  /** Step i serialized the set of state i in this form, and finished less than the interval before `now`. */
  ghost predicate BuiltBy(sha: Gbci.Sha, c: Config, r: seq<State>, steps: seq<Step>, i: nat, form: Form, cache: Cache)
  {
    && i < |steps| < |r| && steps[i].Serve? && steps[i].form == form && Served(form)
    && cache.blob == Serialize(sha, r[i].Advertised(), form) && cache.gen == r[i].Position()
    && (cache.builtAt.At? ==> cache.builtAt.t == steps[i].done)
  }

  /** The step that built a cached blob. */
  lemma {:induction false} CacheHasBuilder(sha: Gbci.Sha, c: Config, r: seq<State>, steps: seq<Step>, j: nat, form: Form)
    returns (i: nat)
    requires Run(sha, c, r, steps) && j < |r| && form in r[j].forms
    ensures i < j && BuiltBy(sha, c, r, steps, i, form, r[j].forms[form])
    ensures r[j].forms[form].mutation == r[j].mutations ==> r[i].Advertised() == r[j].Advertised()
    ensures r[j].forms[form].mutation <= r[j].mutations
    ensures r[j].forms[form].builtAt.At? ==> r[i].epoch == r[j].epoch
  {
    hide Serialize, Served, Sorted.Elements;
    var k := j - 1;
    assert Follows(sha, c, r[k], steps[k], r[j]);
    if steps[k].Serve? && steps[k].form == form && !Servable(c, r[k], form, steps[k].now) {
      i := k;
    } else {
      StepKeepsCaches(sha, c, r[k], steps[k], r[j], form);
      i := CacheHasBuilder(sha, c, r, steps, k, form);
      if !Renews(c, r[k], steps[k]) { QuietStep(sha, c, r[k], steps[k]); }
    }
  }

  /** A step that counts no mutation changes nothing advertised. */
  lemma QuietStep(sha: Gbci.Sha, c: Config, s: State, step: Step)
    requires step.Serve? ==> Served(step.form)
    requires !Renews(c, s, step)
    ensures var s' := Apply(sha, c, s, step);
            && s.mutations <= s'.mutations && s.epoch == s'.epoch
            && (s'.mutations == s.mutations ==> s'.Advertised() == s.Advertised())
  {
  }

  /**
   A blob handed out is that of the set advertised now, or it was built in the same epoch by an
   earlier request for this form that finished less than the interval ago.
   */
  lemma {:induction false} ServedIsFresh(sha: Gbci.Sha, c: Config, r: seq<State>, steps: seq<Step>, j: nat)
    requires Run(sha, c, r, steps) && j < |steps| && steps[j].Serve?
    ensures Served(steps[j].form) && steps[j].form in r[j + 1].forms
    ensures var form := steps[j].form; var (blob, gen) := Reply(r[j + 1], form);
            || blob == Serialize(sha, r[j].Advertised(), form)
            || exists i | 0 <= i < j ::
                 && steps[i].Serve? && steps[i].form == form && steps[j].now - steps[i].done < c.interval
                 && r[i].epoch == r[j].epoch
                 && gen == r[i].Position() && blob == Serialize(sha, r[i].Advertised(), form)
  {
    hide Serialize, Served;
    var form := steps[j].form;
    assert Follows(sha, c, r[j], steps[j], r[j + 1]);
    if Servable(c, r[j], form, steps[j].now) {
      var i := CacheHasBuilder(sha, c, r, steps, j, form);
    }
  }

  // How often one is built.

  /** Step i left a new entry for the form. */
  ghost predicate Builds(r: seq<State>, i: nat, form: Form)
    requires i + 1 < |r|
  {
    form in r[i + 1].forms && (form !in r[i].forms || r[i].forms[form] != r[i + 1].forms[form])
  }

  /** From state i to state j the entry stays as it is. */
  ghost predicate Kept(r: seq<State>, i: nat, j: nat, form: Form)
    requires i <= j < |r|
  {
    form in r[i].forms && forall x | i <= x <= j :: form in r[x].forms && r[x].forms[form] == r[i].forms[form]
  }

  /**
   Two requests that build one form, with the entry untouched between: the later begins at least
   the interval after the earlier was done, and a hash was put between them.
   */
  lemma {:induction false} BuildsAreSpaced(sha: Gbci.Sha, c: Config, r: seq<State>, steps: seq<Step>, i: nat, j: nat,
                                           form: Form)
    requires Run(sha, c, r, steps) && i < j < |steps|
    requires steps[i].Serve? && Builds(r, i, form) && Kept(r, i + 1, j, form) && steps[j].Serve? && Builds(r, j, form)
    ensures steps[j].now - steps[i].done >= c.interval
    ensures exists x | i < x < j :: steps[x].Put? && steps[x].key.raw == ""
  {
    hide Serialize, Served;
    assert Follows(sha, c, r[i], steps[i], r[i + 1]) && Follows(sha, c, r[j], steps[j], r[j + 1]);
    assert r[j].forms[form] == r[i + 1].forms[form];
    var x := SomePut(sha, c, r, steps, i + 1, j, form);
  }

  lemma {:induction false} SomePut(sha: Gbci.Sha, c: Config, r: seq<State>, steps: seq<Step>, i: nat, j: nat, form: Form)
    returns (x: nat)
    requires Run(sha, c, r, steps) && i <= j < |r| && Kept(r, i, j, form) && r[i].forms[form].builtAt.At?
    requires r[j].mutations != r[i].mutations
    ensures i <= x < j && steps[x].Put? && steps[x].key.raw == ""
    decreases j - i
  {
    hide Serialize, Served;
    x := j - 1;
    assert Follows(sha, c, r[x], steps[x], r[j]);
    StepKeepsCaches(sha, c, r[x], steps[x], r[j], form);
    if r[x].mutations != r[i].mutations { x := SomePut(sha, c, r, steps, i, x, form); }
  }

  // Which steps end an epoch.

  /** An epoch ends exactly with a removal, a rebuild, a restart or a put on a full log. */
  lemma {:induction false} EpochEndsIff(sha: Gbci.Sha, c: Config, r: seq<State>, steps: seq<Step>, k: nat)
    requires Run(sha, c, r, steps) && k < |steps|
    ensures var limit := if c.logLimit == 0 then 1048576 else c.logLimit;
            r[k + 1].epoch != r[k].epoch <==>
            || (steps[k].Put? && steps[k].key.raw == "" && |r[k].added| >= limit)
            || (steps[k].Remove? && steps[k].key.raw == "")
            || (steps[k].RemoveKeys? && exists key :: key in steps[k].keys && key.raw == "")
            || steps[k].Rebuild? || steps[k].Restart?
  {
    hide Serialize, Served;
    assert Follows(sha, c, r[k], steps[k], r[k + 1]);
    if steps[k].RemoveKeys? { SomeVictim(steps[k].keys); }
    if Renews(c, r[k], steps[k]) { assert r[k].epoch != r[k + 1].epoch; }
  }

  lemma SomeVictim(keys: seq<CompactKey>)
    ensures Victims(keys) != {} <==> exists key :: key in keys && key.raw == ""
  {
    if key :| key in keys && key.raw == "" { assert key.hash in Victims(keys); }
    if Victims(keys) != {} {
      var h :| h in Victims(keys);
    }
  }

  /** The log never grows past its limit, and every put of an action key moves the position. */
  lemma {:induction false} LogIsBounded(sha: Gbci.Sha, c: Config, r: seq<State>, steps: seq<Step>, k: nat)
    requires Run(sha, c, r, steps) && k < |r| && r[0].added == []
    ensures |r[k].added| <= if c.logLimit == 0 then 1048576 else c.logLimit
    ensures k > 0 && steps[k - 1].Put? && steps[k - 1].key.raw == "" ==>
              r[k].Position() != r[k - 1].Position() && r[k].added[|r[k].added| - 1..] == [steps[k - 1].key.hash]
  {
    hide Serialize, Served;
    if k > 0 {
      LogIsBounded(sha, c, r, steps, k - 1);
      assert Follows(sha, c, r[k - 1], steps[k - 1], r[k]);
    }
  }

  /** Until its epoch ends, a position is answered with a delta. */
  lemma {:induction false} DeltaIsAnswered(sha: Gbci.Sha, c: Config, r: seq<State>, steps: seq<Step>, i: nat, j: nat)
    requires Run(sha, c, r, steps) && i <= j < |r|
    ensures Answers(r[j], r[i].Position()) <==> r[i].epoch == r[j].epoch
  {
    if r[i].epoch == r[j].epoch { EpochGrows(sha, c, r, steps, i, j); }
  }

  // Which hashes are advertised.

  ghost predicate Brings(step: Step, h: Hash) {
    match step
    case Put(key, _) => key == CompactKey(h, "")
    case Rebuild(walked, _) => h in walked
    case Restart(walked, _) => h in walked
    case _ => false
  }

  ghost predicate TakesOut(step: Step, h: Hash) {
    match step
    case Remove(key, _) => key == CompactKey(h, "")
    case RemoveKeys(keys, _) => CompactKey(h, "") in keys
    case Restart(walked, _) => h !in walked
    case _ => false
  }

  /** No step from i up to j takes the hash out. */
  ghost predicate NoneTakesOut(steps: seq<Step>, i: nat, j: nat, h: Hash)
    requires i <= j <= |steps|
  {
    forall x | i <= x < j :: !TakesOut(steps[x], h)
  }

  /** What is advertised was so at the start, put or found by a walk, and not taken out since. */
  lemma {:induction false} AdvertisedFrom(sha: Gbci.Sha, c: Config, r: seq<State>, steps: seq<Step>, k: nat, h: Hash)
    returns (i: nat)
    requires Run(sha, c, r, steps) && k < |r| && h in r[k].Advertised()
    ensures i <= k && NoneTakesOut(steps, i, k, h)
    ensures (i == 0 && h in r[0].Advertised()) || (i > 0 && Brings(steps[i - 1], h))
  {
    hide Serialize, Served;
    if k == 0 {
      i := 0;
    } else {
      assert Follows(sha, c, r[k - 1], steps[k - 1], r[k]);
      if Brings(steps[k - 1], h) {
        i := k;
      } else {
        if steps[k - 1].RemoveKeys? { VictimIs(steps[k - 1].keys, h); }
        i := AdvertisedFrom(sha, c, r, steps, k - 1, h);
      }
    }
  }

  lemma VictimIs(keys: seq<CompactKey>, h: Hash)
    ensures h in Victims(keys) <==> CompactKey(h, "") in keys
  {
    if h in Victims(keys) {
      var key :| key in keys && key.raw == "" && key.hash == h;
      assert key == CompactKey(h, "");
    }
    if CompactKey(h, "") in keys { assert CompactKey(h, "").hash in Victims(keys); }
  }

  /** Every rebuild walked the hash, or found it still in the buffer. */
  ghost predicate RebuildsSpare(steps: seq<Step>, i: nat, j: nat, h: Hash)
    requires i <= j <= |steps|
  {
    forall x | i <= x < j && steps[x].Rebuild? :: h in steps[x].walked || Buffered(steps, i, x)
  }

  /** No step from i up to j empties the buffer. */
  ghost predicate Buffered(steps: seq<Step>, i: nat, j: nat)
    requires i <= j <= |steps|
  {
    forall x | i <= x < j :: !steps[x].Serve? && !steps[x].Restart?
  }

  /**
   A hash that was put is advertised until something takes it out, through any rebuild that walked
   it or that came before any request for a blob.
   */
  lemma {:induction false} PutIsAdvertised(sha: Gbci.Sha, c: Config, r: seq<State>, steps: seq<Step>, i: nat, k: nat,
                                           h: Hash)
    requires Run(sha, c, r, steps) && i < k < |r| && steps[i].Put? && steps[i].key == CompactKey(h, "")
    requires NoneTakesOut(steps, i + 1, k, h) && RebuildsSpare(steps, i + 1, k, h)
    ensures h in r[k].Advertised() && (Buffered(steps, i + 1, k) ==> h in r[k].pending)
    decreases k
  {
    hide Serialize, Served;
    assert Follows(sha, c, r[k - 1], steps[k - 1], r[k]);
    if i + 1 < k {
      PutIsAdvertised(sha, c, r, steps, i, k - 1, h);
      StaysAdvertised(sha, c, r[k - 1], steps[k - 1], h, Buffered(steps, i + 1, k - 1));
    }
  }

  lemma StaysAdvertised(sha: Gbci.Sha, c: Config, s: State, step: Step, h: Hash, buffered: bool)
    requires (step.Serve? ==> Served(step.form)) && !TakesOut(step, h)
    requires h in s.Advertised() && (buffered ==> h in s.pending)
    requires step.Rebuild? ==> h in step.walked || buffered
    ensures var s' := Apply(sha, c, s, step);
            h in s'.Advertised() && (buffered && !step.Serve? && !step.Restart? ==> h in s'.pending)
  {
    hide Serialize, Served;
    if step.RemoveKeys? { VictimIs(step.keys, h); }
  }

  // What a rebuild keeps.

  /** A step that takes the hash out of the buffer: a removal, a restart, or a request that builds a blob. */
  ghost predicate Unbuffers(r: seq<State>, steps: seq<Step>, x: nat, h: Hash)
    requires x < |steps| < |r|
  {
    TakesOut(steps[x], h) || steps[x].Restart? || (steps[x].Serve? && Builds(r, x, steps[x].form))
  }

  ghost predicate PutSince(r: seq<State>, steps: seq<Step>, i: nat, k: nat, h: Hash)
    requires i < k <= |steps| < |r|
  {
    && steps[i].Put? && steps[i].key == CompactKey(h, "")
    && forall x | i < x < k :: !Unbuffers(r, steps, x, h)
  }

  lemma BufferStep(sha: Gbci.Sha, c: Config, r: seq<State>, steps: seq<Step>, k: nat, h: Hash)
    requires k < |steps| < |r| && Follows(sha, c, r[k], steps[k], r[k + 1])
    ensures h in r[k + 1].pending <==>
            (steps[k].Put? && steps[k].key == CompactKey(h, "")) || (h in r[k].pending && !Unbuffers(r, steps, k, h))
  {
    hide Serialize, Served;
    if steps[k].RemoveKeys? { VictimIs(steps[k].keys, h); }
  }

  lemma {:induction false} PendingIff(sha: Gbci.Sha, c: Config, r: seq<State>, steps: seq<Step>, k: nat, h: Hash)
    requires Run(sha, c, r, steps) && k <= |steps| && r[0].pending == {}
    ensures h in r[k].pending <==> exists i | 0 <= i < k :: PutSince(r, steps, i, k, h)
  {
    hide Apply, Unbuffers, Served, Renews;
    if k > 0 {
      var n := k - 1;
      PendingIff(sha, c, r, steps, n, h);
      assert Follows(sha, c, r[n], steps[n], r[k]);
      BufferStep(sha, c, r, steps, n, h);
      forall i | 0 <= i < n && PutSince(r, steps, i, k, h)
        ensures PutSince(r, steps, i, n, h) && !Unbuffers(r, steps, n, h)
      {
      }
      if steps[n].Put? && steps[n].key == CompactKey(h, "") {
        assert PutSince(r, steps, n, k, h);
      } else if h in r[k].pending {
        var i :| 0 <= i < n && PutSince(r, steps, i, n, h);
        assert PutSince(r, steps, i, k, h);
      }
    }
  }

  /**
   Exactly what a rebuild keeps: the hashes it walked, and those put since the last request that
   built a blob and not removed. A hash put during the walk and then served is lost.
   */
  lemma {:induction false} RebuildKeepsIff(sha: Gbci.Sha, c: Config, r: seq<State>, steps: seq<Step>, k: nat, h: Hash)
    requires Run(sha, c, r, steps) && k < |steps| && steps[k].Rebuild? && r[0].pending == {}
    ensures h in r[k + 1].Advertised() <==> h in steps[k].walked || exists i | 0 <= i < k :: PutSince(r, steps, i, k, h)
  {
    hide PutSince;
    PendingIff(sha, c, r, steps, k, h);
    assert Follows(sha, c, r[k], steps[k], r[k + 1]);
  }
}
