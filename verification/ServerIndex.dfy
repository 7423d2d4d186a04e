/**
 The server's index object. Each method is one locked section and is proved to take the step of
 the same name of module AddLog.
 */
module ServerIndex {
  import opened Words
  import opened Sorted
  import opened Prefixes
  import opened HashLists
  import Gbci
  import opened IndexV2Codec
  import opened IndexForms
  import opened AddLog
  import opened NearbyScan
  import opened EntryLists

  const DEFAULT_HASH_BITS := 40

  class Index {
    const config: Config
    var hashes: seq<Hash>
    var pending: seq<Hash>
    var mutations: nat
    var forms: map<Form, Cache>
    var hashBits: nat
    var addEpoch: u64
    var added: seq<Hash>
    var entries: seq<Entry>
    var pendingEntries: seq<Entry>
    var entriesOff: bool

    ghost predicate Valid()
      reads this
    {
      Strict(hashes) && InOrder(entries)
    }

    /** Every key with its time, in the list or in its buffer. */
    ghost function Listed(): multiset<Entry>
      reads this
    {
      multiset(entries) + multiset(pendingEntries)
    }

    ghost function Abs(): State
      reads this
    {
      State(Elements(hashes), Elements(pending), mutations, forms, addEpoch, added)
    }

    constructor (config: Config, draw: u64, entriesOff: bool)
      ensures Valid() && this.config == config && this.entriesOff == entriesOff && Listed() == multiset{}
      ensures Abs() == State({}, {}, 0, map[], draw, [])
    {
      this.config := config;
      hashes, pending, mutations, forms, hashBits, addEpoch, added := [], [], 0, map[], 0, draw, [];
      entries, pendingEntries, this.entriesOff := [], [], entriesOff;
    }

    method Put(sha: Gbci.Sha, key: CompactKey, now: int, draw: u64)
      requires Valid()
      modifies `pending, `pendingEntries, `mutations, `addEpoch, `added, `forms
      ensures Valid() && Abs() == Apply(sha, config, old(Abs()), AddLog.Put(key, draw))
      ensures Listed() == old(Listed()) + if entriesOff then multiset{} else multiset{Entry(key, now)}
    {
      hide InOrder, Strict, Elements, Apply;
      NoteEntry(key, now);
      AddHash(sha, key, draw);
    }

    method AddHash(sha: Gbci.Sha, key: CompactKey, draw: u64)
      requires Valid()
      modifies `pending, `mutations, `addEpoch, `added, `forms
      ensures Valid() && Abs() == Apply(sha, config, old(Abs()), AddLog.Put(key, draw))
    {
      hide InOrder, Reset, Strict;
      if key.raw == "" {
        ElementsSnoc(pending, key.hash);
        pending := pending + [key.hash];
        AppendAdd(key.hash, draw);
        mutations := mutations + 1;
      }
    }

    method NoteEntry(key: CompactKey, now: int)
      requires Valid()
      modifies `pendingEntries
      ensures Valid()
      ensures Listed() == old(Listed()) + if entriesOff then multiset{} else multiset{Entry(key, now)}
    {
      if !entriesOff { pendingEntries := pendingEntries + [Entry(key, now)]; }
    }

    /** drainEntriesLocked: the list is complete and in order of time. */
    method DrainEntries()
      requires Valid()
      modifies `entries, `pendingEntries
      ensures Valid() && pendingEntries == [] && Listed() == old(Listed()) == multiset(entries)
    {
      if |pendingEntries| == 0 { return; }
      entries := entries + pendingEntries;
      pendingEntries := [];
      entries := SortByTime(entries);
    }

    method DisableEntryTracking()
      requires Valid()
      modifies `entries, `pendingEntries, `entriesOff
      ensures Valid() && entriesOff && Listed() == multiset{}
    {
      entriesOff, entries, pendingEntries := true, [], [];
    }

    /** The keys nearest in time, over everything listed. */
    method NearbyKeys(q: Query, limit: int, f: Filter) returns (keys: seq<CompactKey>, ghost seen: seq<nat>)
      requires Valid()
      modifies `entries, `pendingEntries
      ensures Valid() && Listed() == old(Listed()) == multiset(entries)
      ensures Nearest(entries, q, seen) && LeavesOnlyFarther(entries, q, seen) && keys == Wanted(entries, f, seen)
      ensures f.NoFilter? && limit > 0 ==>
                |keys| == if |AllEligible(entries, q)| < limit then |AllEligible(entries, q)| else limit
    {
      hide InOrder, Nearest, LeavesOnlyFarther, AllEligible, Wanted;
      if |pendingEntries| > 0 { DrainEntries(); }
      keys, seen := NearbyScan.NearbyKeys(entries, q, limit, f);
    }

    method AppendAdd(hash: Hash, draw: u64)
      requires Valid()
      modifies `mutations, `addEpoch, `added, `forms
      ensures Valid()
      ensures var s := old(Abs()); var s := if |s.added| >= Limit(config) then Reset(s, draw) else s;
              Abs() == s.(added := s.added + [hash])
    {
      if |added| >= Limit(config) { ResetAddLog(draw); }
      added := added + [hash];
    }

    /** Every cached blob names the ended epoch, so none may count as young. */
    method ResetAddLog(draw: u64)
      requires Valid()
      modifies `mutations, `addEpoch, `added, `forms
      ensures Valid() && Abs() == Reset(old(Abs()), draw)
    {
      addEpoch := draw;
      added := [];
      mutations := mutations + 1;
      var left := forms.Keys;
      ghost var was := forms;
      while left != {}
        invariant left <= forms.Keys == was.Keys && Valid()
        invariant forall f | f in was.Keys :: forms[f] == if f in left then was[f] else was[f].(builtAt := Never)
        invariant Abs() == Reset(old(Abs()), draw).(forms := forms)
      {
        var f :| f in left;
        forms := forms[f := forms[f].(builtAt := Never)];
        left := left - {f};
      }
    }

    method Remove(sha: Gbci.Sha, key: CompactKey, draw: u64)
      requires Valid()
      modifies `entries, `pendingEntries, `hashes, `pending, `mutations, `addEpoch, `added, `forms
      ensures Valid() && Abs() == Apply(sha, config, old(Abs()), AddLog.Remove(key, draw))
      ensures LosesEarliest(old(Listed()), key, Listed())
    {
      RemoveEntry(key);
      if key.raw == "" {
        var p := HashLists.Filter(pending, {key.hash});
        var h := HashLists.Filter(hashes, {key.hash});
        pending, hashes := p, h;
        ResetAddLog(draw);
      }
    }

    /** The entry of a key goes, wherever it was; of several the earliest. */
    method RemoveEntry(key: CompactKey)
      requires Valid()
      modifies `entries, `pendingEntries
      ensures Valid() && LosesEarliest(old(Listed()), key, Listed())
    {
      hide LosesEarliest, InOrder;
      DrainEntries();
      entries := RemoveFirst(entries, key);
      assert Listed() == multiset(entries);
    }

    method RemoveKeys(sha: Gbci.Sha, keys: seq<CompactKey>, draw: u64)
      requires Valid()
      modifies `entries, `pendingEntries, `hashes, `pending, `mutations, `addEpoch, `added, `forms
      ensures Valid() && Abs() == Apply(sha, config, old(Abs()), AddLog.RemoveKeys(keys, draw))
      ensures Filtered(old(Listed()), KeySetOf(keys), Listed())
    {
      hide InOrder, Filtered, Victims, Reset;
      if |keys| == 0 {
        NoVictims(keys, Listed());
        return;
      }
      var victimKeys, victims := VictimsOf(keys);
      RemoveEntries(victimKeys);
      if victims != {} {
        var h := HashLists.Filter(hashes, victims);
        var p := HashLists.Filter(pending, victims);
        hashes, pending := h, p;
        ResetAddLog(draw);
      }
    }

    /** Every entry of the keys goes, wherever it was. */
    method RemoveEntries(victims: set<CompactKey>)
      requires Valid()
      modifies `entries, `pendingEntries
      ensures Valid() && Filtered(old(Listed()), victims, Listed())
    {
      hide InOrder, Filtered;
      DrainEntries();
      entries := FilterEntries(entries, victims);
      assert Listed() == multiset(entries);
    }

    /** Whether the next serialization carries h. */
    method Contains(h: Hash) returns (found: bool)
      requires Valid()
      ensures found <==> h in Abs().Advertised()
    {
      var i := Search(hashes, h);
      if i < |hashes| && hashes[i] == h { return true; }
      for j := 0 to |pending|
        invariant h !in pending[..j]
      {
        if pending[j] == h { return true; }
      }
      return false;
    }

    method MergePending() returns (gen: Gen)
      requires Valid()
      modifies this`hashes, this`pending
      ensures Valid() && gen == old(Abs()).Position()
      ensures Abs() == old(Abs()).(master := old(Abs()).Advertised(), pending := {})
    {
      if |pending| > 0 {
        var sorted := SortDedupe(pending);
        hashes := MergeSorted(hashes, sorted);
        pending := [];
      } else {
        assert pending == [];
      }
      gen := Gen(addEpoch, |added|);
    }

    predicate BlobServable(form: Form, now: int)
      reads this
    {
      form in forms && (forms[form].mutation == mutations ||
                        (forms[form].builtAt.At? && now - forms[form].builtAt.t < config.interval))
    }

    /** The read path: a servable blob is handed out as it is. */
    method TryServe(form: Form, now: int) returns (ok: bool, blob: seq<byte>, gen: Gen)
      ensures ok <==> Servable(config, Abs(), form, now)
      ensures ok ==> form in forms && (blob, gen) == Reply(Abs(), form)
    {
      if BlobServable(form, now) { return true, forms[form].blob, forms[form].gen; }
      return false, [], Gen(0, 0);
    }

    /** The locked path: checks again, and else merges, serializes and caches. */
    method ServeOrBuild(sha: Gbci.Sha, form: Form, now: int, done: int) returns (blob: seq<byte>, gen: Gen)
      requires Valid() && Served(form)
      modifies `hashes, `pending, `forms
      ensures Valid()
      ensures Abs() == Apply(sha, config, old(Abs()), Serve(form, now, done))
      ensures form in forms && (blob, gen) == Reply(Abs(), form)
    {
      hide Serialize, Served, Strict, Elements;
      if !BlobServable(form, now) {
        gen := MergePending();
        blob := MarshalForm(sha, hashes, form);
        forms := forms[form := Cache(blob, gen, At(done), mutations)];
      }
      return forms[form].blob, forms[form].gen;
    }

    /** The hashes added after `from`, or a refusal. */
    method DeltaForm(sha: Gbci.Sha, from: Gen, form: Form) returns (ok: bool, blob: seq<byte>, to: Gen)
      requires Served(form)
      ensures ok <==> Answers(Abs(), from)
      ensures ok ==> blob == DeltaBlob(sha, Abs(), from, form) && to == Abs().Position()
    {
      if from.epoch != addEpoch || from.pos > |added| { return false, [], Gen(0, 0); }
      var tail := SortDedupe(added[from.pos..]);
      to := Gen(addEpoch, |added|);
      blob := MarshalForm(sha, tail, form);
      return true, blob, to;
    }

    /** Installs a walk's result. The buffers survive, because the walk may have missed them. */
    method ApplyRebuild(sha: Gbci.Sha, walked: seq<Hash>, times: seq<Entry>, draw: u64) returns (listed: nat, hashed: nat)
      requires Valid()
      modifies `entries, `hashes, `mutations, `addEpoch, `added, `forms
      ensures Valid() && Abs() == Apply(sha, config, old(Abs()), Rebuild(Elements(walked), draw))
      ensures Listed() == multiset(times) + multiset(pendingEntries)
      ensures listed == |times| && hashed == |Elements(walked)| + |pending|
    {
      var ordered := SortByTime(times);
      var sorted := SortDedupe(walked);
      StrictSize(sorted);
      entries := ordered;
      hashes := sorted;
      forms := map[];
      ResetAddLog(draw);
      listed, hashed := |entries|, |hashes| + |pending|;
      assert |multiset(ordered)| == |multiset(times)|;
    }

    method SetHashBits(sha: Gbci.Sha, n: nat)
      requires Valid()
      modifies `hashBits, `forms
      ensures Valid() && hashBits == n && Abs() == Apply(sha, config, old(Abs()), ClearForms)
    {
      hashBits := n;
      forms := map[];
    }

    function Bits(): nat
      reads this
    {
      if hashBits == 0 then DEFAULT_HASH_BITS else hashBits
    }

    /** The exact length of the v2 body the next request gets, with nothing serialized or changed. */
    method WireSize(sha: Gbci.Sha, now: int, ghost done: int) returns (size: nat)
      requires Valid() && Served(V2(Bits())) && |hashes| + |pending| < MAX_VALUES
      ensures var s' := Apply(sha, config, Abs(), Serve(V2(Bits()), now, done));
              V2(Bits()) in s'.forms && size == |Reply(s', V2(Bits())).0|
    {
      hide Serialize, Served;
      var bits := Bits();
      var form := V2(bits);
      if BlobServable(form, now) { return |forms[form].blob|; }
      var recent: seq<Hash> := [];
      if |pending| > 0 { recent := SortDedupe(pending); }
      assert Strict(recent) && Elements(recent) == Elements(pending);
      StrictSize(recent);
      ElementsSize(pending);
      hide Elements;
      size := MergedSize(sha, hashes, recent, bits);
    }
  }

  function KeySetOf(keys: seq<CompactKey>): set<CompactKey> {
    set k | k in keys
  }

  /** The keys of a batch, and the action hashes among them. */
  method VictimsOf(keys: seq<CompactKey>) returns (ids: set<CompactKey>, hashes: set<Hash>)
    ensures ids == KeySetOf(keys) && hashes == Victims(keys)
  {
    ids, hashes := {}, {};
    for i := 0 to |keys|
      invariant ids == KeySetOf(keys[..i]) && hashes == Victims(keys[..i])
    {
      assert keys[..i + 1] == keys[..i] + [keys[i]];
      ids := ids + {keys[i]};
      if keys[i].raw == "" { hashes := hashes + {keys[i].hash}; }
    }
    assert keys[..|keys|] == keys;
  }

  lemma NoVictims(keys: seq<CompactKey>, all: multiset<Entry>)
    requires keys == []
    ensures Victims(keys) == {} && Filtered(all, KeySetOf(keys), all)
  {
  }

  method MergedSize(sha: Gbci.Sha, a: seq<Hash>, b: seq<Hash>, bits: nat) returns (size: nat)
    requires Strict(a) && Strict(b) && |a| + |b| < MAX_VALUES && Served(V2(bits))
    ensures size == |Serialize(sha, Elements(a) + Elements(b), V2(bits))|
  {
    var values := PrefixValues(a, b, bits);
    ghost var all := Elements(a) + Elements(b);
    ListingEncodable(all, V2(bits));
    StrictUnique(values, Listing(Tops(all, bits)));
    ListingSize(all, bits);
    StrictSize(a);
    StrictSize(b);
    size := Gbci2Size(sha, bits, values);
  }
}
