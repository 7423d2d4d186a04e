/**
 One client's live key set: claims and drops, the load that installs an index in the background,
 and the position the set is complete up to.

 Each section under the client's lock is one function from state to state. `dropped` and `claimed`
 are every hash this client has ever dropped and claimed; no code reads them.
 */
module IndexClient {
  import opened Words
  import opened Prefixes
  import opened KeySet
  import AddLog

  /** No position: the epoch is zero. */
  const NOWHERE := AddLog.Gen(0, 0)

  predicate Somewhere(g: AddLog.Gen) { g.epoch != 0 }

  /** The claims and drops made while a load runs. */
  datatype Journal = NoJournal | Journal(added: set<Hash>, dropped: set<Hash>)

  /** What a load hands over: the live set itself, another set, or nothing. */
  datatype Outcome = LiveSet | NewSet(keys: View) | Nothing

  datatype Phase = NotLoaded | Loading(copy: View, from: AddLog.Gen)
    | Arrived(copy: View, outcome: Outcome, confirmed: bool) | Loaded

  datatype Client = Client(keys: View, authoritative: bool, journal: Journal, liveGen: AddLog.Gen, phase: Phase,
                           asking: bool, dropped: set<Hash>, claimed: set<Hash>)

  const EMPTY := View({}, 0)

  const NEW_CLIENT := Client(EMPTY, false, NoJournal, NOWHERE, NotLoaded, false, {}, {})

  /** addKeyLocked. */
  function Claim(c: Client, h: Hash): Client {
    c.(keys := c.keys.Plus(h), claimed := c.claimed + {h},
       journal := match c.journal
                  case NoJournal => NoJournal
                  case Journal(a, d) => Journal(a + {h}, d - {h}))
  }

  /** dropKeyLocked. */
  function Drop(c: Client, h: Hash): Client {
    c.(keys := c.keys.Minus(h), dropped := c.dropped + {h},
       journal := match c.journal
                  case NoJournal => NoJournal
                  case Journal(a, d) => Journal(a - {h}, d + {h}))
  }

  /** startIndexLoad, over the disk copy as it was read. */
  function Start(c: Client, hasCopy: bool, copy: View, from: AddLog.Gen, young: bool): Client
    requires c.phase.NotLoaded?
  {
    if hasCopy && !Somewhere(from) && young then
      c.(keys := copy, authoritative := true, phase := Loaded)
    else
      c.(keys := copy, authoritative := false, journal := Journal({}, {}), phase := Loading(copy, from))
  }

  /** applyDelta with a delta: the live set carries every claim and drop already. */
  ghost function InstallDelta(c: Client, added: View, to: AddLog.Gen): Client
    requires c.phase.Loading? && Somewhere(c.phase.from)
  {
    c.(keys := c.keys.PlusAll(added), journal := NoJournal, liveGen := to, authoritative := true, phase := Loaded)
  }

  /** applyDelta without one: the copy stays, trusted while it is young. */
  ghost function KeepCopy(c: Client, young: bool): Client
    requires c.phase.Loading? && c.journal.Journal?
  {
    AdoptAs(c, LiveSet, young)
  }

  /** refreshIndex: what came back, and the position it names. */
  function Arrive(c: Client, outcome: Outcome, confirmed: bool, gen: AddLog.Gen): Client
    requires c.phase.Loading?
  {
    c.(liveGen := if confirmed then gen else c.liveGen, phase := Arrived(c.phase.copy, outcome, confirmed))
  }

  /** adoptIndex: all claims, then all drops, on a set that does not carry them yet. */
  ghost function AdoptAs(c: Client, outcome: Outcome, authoritative: bool): Client
    requires c.journal.Journal?
  {
    var c' := c.(journal := NoJournal, phase := Loaded);
    match outcome
    case Nothing => c'
    case LiveSet => c'.(authoritative := authoritative)
    case NewSet(keys) => c'.(authoritative := authoritative, keys := Replayed(keys, c.journal))
  }

  ghost function Adopt(c: Client): Client
    requires c.phase.Arrived? && c.journal.Journal?
  {
    AdoptAs(c, c.phase.outcome, c.phase.confirmed)
  }

  ghost function Replayed(v: View, j: Journal): View
    requires j.Journal?
  {
    View(v.members + KeysAt(j.added, v.shift) - KeysAt(j.dropped, v.shift), v.shift)
  }

  /** refreshLiveDelta starts only on a confirmed set with a position and no load. */
  predicate MayAsk(c: Client) {
    Somewhere(c.liveGen) && c.journal.NoJournal? && c.authoritative
  }

  ghost function LiveDelta(c: Client, added: View, to: AddLog.Gen): Client
    requires c.asking
  {
    c.(keys := c.keys.PlusAll(added), liveGen := to, asking := false)
  }

  function LiveGone(c: Client): Client
    requires c.asking
  {
    c.(liveGen := NOWHERE, asking := false)
  }

  /** keys holds every key of v, at its own width, but for those a dropped hash stands for. */
  ghost predicate Carries(keys: View, v: View, dropped: set<Hash>) {
    && v.shift <= keys.shift
    && forall k: u64 | k in v.members ::
         Masked(k, keys.shift) in keys.members || Masked(k, keys.shift) in KeysAt(dropped, keys.shift)
  }

  /** keys holds only keys of v, at its own width, and those a claimed hash stands for. */
  ghost predicate Within(keys: View, v: View, claimed: set<Hash>) {
    && v.shift <= keys.shift
    && forall k: u64 | k in keys.members :: k in Narrowed(v.members, keys.shift) || k in KeysAt(claimed, keys.shift)
  }

  /** keys is v at its own width, but for what was claimed and what was dropped. */
  ghost predicate Stands(keys: View, v: View, claimed: set<Hash>, dropped: set<Hash>) {
    Carries(keys, v, dropped) && Within(keys, v, claimed)
  }

  /** What every step keeps, apart from what positions mean. */
  ghost predicate Coherent(c: Client) {
    && c.keys.Masks()
    && (c.journal.Journal? ==> c.journal.dropped <= c.dropped && c.journal.added <= c.claimed && !c.asking)
    && (c.asking ==> MayAsk(c) && c.phase.Loaded?)
    && (match c.phase
        case NotLoaded => c == NEW_CLIENT
        case Loading(copy, from) =>
          && c.journal.Journal? && !c.authoritative && !Somewhere(c.liveGen)
          && copy.Masks() && Stands(c.keys, copy, c.claimed, c.dropped)
        case Arrived(copy, outcome, confirmed) =>
          && c.journal.Journal? && copy.Masks() && Stands(c.keys, copy, c.claimed, c.dropped)
          && (outcome.NewSet? ==> outcome.keys.Masks())
          && (outcome.Nothing? ==> !confirmed)
          && (!confirmed ==> !Somewhere(c.liveGen))
          && !c.authoritative
        case Loaded => c.journal.NoJournal?)
  }

  /** A claim keeps what a set carries. */
  lemma {:induction false} ClaimCarries(keys: View, v: View, dropped: set<Hash>, h: Hash)
    requires keys.Masks() && Carries(keys, v, dropped)
    ensures keys.Plus(h).Masks() && Carries(keys.Plus(h), v, dropped)
  {
    hide Masked;
    MaskAgain(Key64(h), keys.shift);
  }

  /** A drop loses only keys the dropped hash stands for. */
  lemma {:induction false} DropCarries(keys: View, v: View, dropped: set<Hash>, h: Hash)
    requires keys.Masks() && Carries(keys, v, dropped)
    ensures keys.Minus(h).Masks() && Carries(keys.Minus(h), v, dropped + {h})
  {
    hide Masked;
    assert KeyAt(h, keys.shift) in KeysAt(dropped + {h}, keys.shift);
    assert KeysAt(dropped, keys.shift) <= KeysAt(dropped + {h}, keys.shift);
  }

  /** Joining in a delta carries the join. */
  lemma {:induction false} JoinCarries(keys: View, v: View, dropped: set<Hash>, added: View)
    requires keys.Masks() && v.Masks() && added.Masks() && Carries(keys, v, dropped)
    ensures keys.PlusAll(added).Masks() && Carries(keys.PlusAll(added), v.PlusAll(added), dropped)
  {
    hide Masked;
    var all := keys.PlusAll(added);
    var to := all.shift;
    JoinIsImage(keys, added);
    NarrowedMasks(keys.members + added.members, to);
    forall k: u64 | k in v.PlusAll(added).members
      ensures Masked(k, to) in all.members || Masked(k, to) in KeysAt(dropped, to)
    {
      JoinMember(keys, v, dropped, added, k);
    }
  }

  lemma {:induction false} JoinMember(keys: View, v: View, dropped: set<Hash>, added: View, k: u64)
    requires keys.Masks() && v.Masks() && added.Masks() && Carries(keys, v, dropped)
    requires k in v.PlusAll(added).members
    ensures var to := keys.PlusAll(added).shift;
            Masked(k, to) in keys.PlusAll(added).members || Masked(k, to) in KeysAt(dropped, to)
  {
    hide Masked;
    var to, s := keys.PlusAll(added).shift, v.PlusAll(added).shift;
    if k in Narrowed(added.members, s) {
      var k0: u64 :| k0 in added.members && Masked(k0, s) == k;
      MaskTwice(k0, s, to);
    } else {
      var k0: u64 :| k0 in v.members && Masked(k0, s) == k;
      MaskTwice(k0, s, to);
      var m := Masked(k0, keys.shift);
      MaskTwice(k0, keys.shift, to);
      if m !in keys.members {
        var d: Hash :| d in dropped && KeyAt(d, keys.shift) == m;
        MaskTwice(Key64(d), keys.shift, to);
      }
    }
  }

  /** A new set with the journal replayed carries itself, but for the drops. */
  lemma {:induction false} ReplayCarries(v: View, j: Journal, dropped: set<Hash>)
    requires v.Masks() && j.Journal? && j.dropped <= dropped
    ensures Replayed(v, j).Masks() && Carries(Replayed(v, j), v, dropped)
  {
    hide Masked;
    forall k | k in KeysAt(j.added, v.shift)
      ensures 0 <= k < WORD && Masked(k, v.shift) == k
    {
      var h: Hash :| h in j.added && KeyAt(h, v.shift) == k;
      MaskAgain(Key64(h), v.shift);
    }
    assert KeysAt(j.dropped, v.shift) <= KeysAt(dropped, v.shift);
  }

  /** A claim brings only keys the claimed hash stands for. */
  lemma {:induction false} ClaimWithin(keys: View, v: View, claimed: set<Hash>, h: Hash)
    requires Within(keys, v, claimed)
    ensures Within(keys.Plus(h), v, claimed + {h})
  {
    hide Masked, Narrowed;
    assert KeyAt(h, keys.shift) in KeysAt(claimed + {h}, keys.shift);
    assert KeysAt(claimed, keys.shift) <= KeysAt(claimed + {h}, keys.shift);
  }

  /** Joining in a delta brings only the delta. */
  lemma {:induction false} JoinWithin(keys: View, v: View, claimed: set<Hash>, added: View)
    requires keys.Masks() && v.Masks() && added.Masks() && Within(keys, v, claimed)
    ensures Within(keys.PlusAll(added), v.PlusAll(added), claimed)
  {
    hide Masked;
    var to := keys.PlusAll(added).shift;
    forall k: u64 | k in keys.PlusAll(added).members
      ensures k in Narrowed(v.PlusAll(added).members, to) || k in KeysAt(claimed, to)
    {
      JoinSource(keys, v, claimed, added, k);
    }
  }

  lemma {:induction false} JoinSource(keys: View, v: View, claimed: set<Hash>, added: View, k: u64)
    requires keys.Masks() && v.Masks() && added.Masks() && Within(keys, v, claimed) && k in keys.PlusAll(added).members
    ensures var to := keys.PlusAll(added).shift; k in Narrowed(v.PlusAll(added).members, to) || k in KeysAt(claimed, to)
  {
    hide Masked;
    var to, s := keys.PlusAll(added).shift, v.PlusAll(added).shift;
    if k in Narrowed(added.members, to) {
      var k0: u64 :| k0 in added.members && Masked(k0, to) == k;
      MaskTwice(k0, s, to);
      assert Masked(k0, s) in v.PlusAll(added).members;
    } else {
      var k0: u64 :| k0 in keys.members && Masked(k0, to) == k;
      if k0 in KeysAt(claimed, keys.shift) {
        var h: Hash :| h in claimed && KeyAt(h, keys.shift) == k0;
        MaskTwice(Key64(h), keys.shift, to);
      } else {
        var k1: u64 :| k1 in v.members && Masked(k1, keys.shift) == k0;
        MaskTwice(k1, keys.shift, to);
        MaskTwice(k1, s, to);
        assert Masked(k1, s) in v.PlusAll(added).members;
      }
    }
  }

  lemma {:induction false} ReplayWithin(v: View, j: Journal, claimed: set<Hash>)
    requires v.Masks() && j.Journal? && j.added <= claimed
    ensures Within(Replayed(v, j), v, claimed)
  {
    hide Masked, Narrowed;
    NarrowedSame(v.members, v.shift);
    assert KeysAt(j.added, v.shift) <= KeysAt(claimed, v.shift);
  }

  // Both bounds together.

  lemma {:induction false} ClaimStands(keys: View, v: View, claimed: set<Hash>, dropped: set<Hash>, h: Hash)
    requires keys.Masks() && Stands(keys, v, claimed, dropped)
    ensures keys.Plus(h).Masks() && Stands(keys.Plus(h), v, claimed + {h}, dropped)
  {
    hide Carries, Within;
    ClaimCarries(keys, v, dropped, h);
    ClaimWithin(keys, v, claimed, h);
  }

  lemma {:induction false} DropStands(keys: View, v: View, claimed: set<Hash>, dropped: set<Hash>, h: Hash)
    requires keys.Masks() && Stands(keys, v, claimed, dropped)
    ensures keys.Minus(h).Masks() && Stands(keys.Minus(h), v, claimed, dropped + {h})
  {
    hide Carries, Narrowed, KeyAt;
    DropCarries(keys, v, dropped, h);
  }

  lemma {:induction false} JoinStands(keys: View, v: View, claimed: set<Hash>, dropped: set<Hash>, added: View)
    requires keys.Masks() && v.Masks() && added.Masks() && Stands(keys, v, claimed, dropped)
    ensures keys.PlusAll(added).Masks() && Stands(keys.PlusAll(added), v.PlusAll(added), claimed, dropped)
  {
    hide Carries, Within, View.PlusAll;
    JoinCarries(keys, v, dropped, added);
    JoinWithin(keys, v, claimed, added);
  }

  lemma {:induction false} ReplayStands(v: View, j: Journal, claimed: set<Hash>, dropped: set<Hash>)
    requires v.Masks() && j.Journal? && j.dropped <= dropped && j.added <= claimed
    ensures Replayed(v, j).Masks() && Stands(Replayed(v, j), v, claimed, dropped)
  {
    hide Carries, Within, Replayed;
    ReplayCarries(v, j, dropped);
    ReplayWithin(v, j, claimed);
  }

  lemma {:induction false} StandsSelf(v: View)
    requires v.Masks()
    ensures Stands(v, v, {}, {})
  {
    hide Masked;
    NarrowedSame(v.members, v.shift);
  }

  // Every step of one client keeps it coherent.

  lemma {:induction false} StartCoherent(c: Client, hasCopy: bool, copy: View, from: AddLog.Gen, young: bool)
    requires Coherent(c) && c.phase.NotLoaded? && copy.Masks()
    ensures Coherent(Start(c, hasCopy, copy, from, young))
  {
    hide View.Masks;
    StandsSelf(copy);
  }

  lemma {:induction false} ClaimCoherent(c: Client, h: Hash)
    requires Coherent(c) && !c.phase.NotLoaded?
    ensures Coherent(Claim(c, h))
  {
    hide Stands;
    ClaimMasks(c.keys, h);
    if c.phase.Loading? || c.phase.Arrived? { ClaimStands(c.keys, c.phase.copy, c.claimed, c.dropped, h); }
  }

  lemma {:induction false} ClaimMasks(keys: View, h: Hash)
    requires keys.Masks()
    ensures keys.Plus(h).Masks()
  {
    hide Masked;
    MaskAgain(Key64(h), keys.shift);
  }

  lemma {:induction false} DropCoherent(c: Client, h: Hash)
    requires Coherent(c) && !c.phase.NotLoaded?
    ensures Coherent(Drop(c, h))
  {
    hide Stands, KeyAt;
    if c.phase.Loading? || c.phase.Arrived? { DropStands(c.keys, c.phase.copy, c.claimed, c.dropped, h); }
  }

  lemma {:induction false} AdoptCoherent(c: Client)
    requires Coherent(c) && c.phase.Arrived?
    ensures Coherent(Adopt(c))
  {
    hide Stands, Replayed, View.Masks;
    if c.phase.outcome.NewSet? { ReplayStands(c.phase.outcome.keys, c.journal, c.claimed, c.dropped); }
  }

  lemma {:induction false} InstallCoherent(c: Client, added: View, to: AddLog.Gen)
    requires Coherent(c) && c.phase.Loading? && Somewhere(c.phase.from) && added.Masks()
    ensures Coherent(InstallDelta(c, added, to))
    ensures Stands(InstallDelta(c, added, to).keys, c.phase.copy.PlusAll(added), c.claimed, c.dropped)
  {
    hide Stands, View.Masks, View.PlusAll;
    JoinStands(c.keys, c.phase.copy, c.claimed, c.dropped, added);
  }
}
