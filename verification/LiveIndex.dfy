/**
 The client's live key set as the source changes it in place, each locked section against the
 state of IndexClient it stands for.
 */
module LiveIndex {
  import opened Prefixes
  import opened SortedSet
  import opened KeySet
  import opened AddLog
  import opened IndexClient

  /** Nothing of a key set is shared with another. */
  ghost predicate Apart(a: KeySet, b: KeySet)
    reads a, a.keys, b, b.keys
  {
    a != b && a.keys != b.keys && a.keys.buf != b.keys.buf
  }

  class LiveIndex {
    var keys: KeySet
    var authoritative: bool
    var journal: Journal
    var liveGen: Gen

    /** The client this stands for: the fields above, and where its load is. */
    ghost var model: Client

    ghost predicate Valid()
      reads this, keys, keys.keys, keys.keys.buf
    {
      && keys.Valid()
      && model.keys == keys.Value() && model.authoritative == authoritative
      && model.journal == journal && model.liveGen == liveGen
    }

    constructor ()
      ensures Valid() && model == NEW_CLIENT && fresh(keys) && fresh(keys.keys) && fresh(keys.keys.buf)
    {
      keys := new KeySet([], 64);
      authoritative, journal, liveGen := false, NoJournal, NOWHERE;
      model := NEW_CLIENT;
    }

    /** addKeyLocked. */
    method AddKey(h: Hash)
      requires Valid()
      modifies this, keys.keys, keys.keys.buf
      ensures Valid() && keys == old(keys) && (keys.keys.buf == old(keys.keys.buf) || fresh(keys.keys.buf))
      ensures model == Claim(old(model), h)
    {
      hide HashSet.Valid, HashSet.Contents, HashSet.Shape, View.Masks, View.Plus;
      keys.Add(h);
      if journal.Journal? {
        journal := Journal(journal.added, journal.dropped - {h});
        journal := Journal(journal.added + {h}, journal.dropped);
      }
      model := Claim(model, h);
    }

    /** dropKeyLocked. */
    method DropKey(h: Hash)
      requires Valid()
      modifies this, keys.keys, keys.keys.buf
      ensures Valid() && keys == old(keys) && (keys.keys.buf == old(keys.keys.buf) || fresh(keys.keys.buf))
      ensures model == Drop(old(model), h)
    {
      hide HashSet.Valid, HashSet.Contents, HashSet.Shape, View.Masks, View.Minus;
      keys.Remove(h);
      if journal.Journal? {
        journal := Journal(journal.added - {h}, journal.dropped);
        journal := Journal(journal.added, journal.dropped + {h});
      }
      model := Drop(model, h);
    }

    /** The locked sections of startIndexLoad and startDeltaLoad. */
    method Start(copy: KeySet, hasCopy: bool, from: Gen, young: bool)
      requires Valid() && copy.Valid() && model.phase.NotLoaded?
      modifies this
      ensures Valid() && keys == copy && model == IndexClient.Start(old(model), hasCopy, old(copy.Value()), from, young)
    {
      hide View.Masks, Masked, HashSet.Valid, HashSet.Contents, HashSet.Shape;
      model := IndexClient.Start(model, hasCopy, copy.Value(), from, young);
      keys := copy;
      if hasCopy && from.epoch == 0 && young {
        authoritative := true;
      } else {
        authoritative := false;
        journal := Journal({}, {});
      }
    }

    /** The locked section of applyDelta. */
    method InstallDelta(added: KeySet, to: Gen)
      requires Valid() && added.Valid() && Apart(keys, added) && model.phase.Loading? && Somewhere(model.phase.from)
      modifies this, keys, keys.keys, keys.keys.buf
      ensures Valid() && keys == old(keys)
      ensures model == IndexClient.InstallDelta(old(model), old(added.Value()), to)
    {
      hide HashSet.Valid, HashSet.Contents, HashSet.Shape, View.PlusAll, View.Masks;
      ghost var o := added.Value();
      keys.AddAll(added);
      journal, liveGen, authoritative := NoJournal, to, true;
      model := IndexClient.InstallDelta(model, o, to);
    }

    /** setLiveGen, as a load calls it with what it brought. */
    method Arrive(ghost outcome: Outcome, confirmed: bool, gen: Gen)
      requires Valid() && model.phase.Loading?
      modifies this
      ensures Valid() && keys == old(keys) && model == IndexClient.Arrive(old(model), outcome, confirmed, gen)
    {
      hide HashSet.Valid, HashSet.Contents, HashSet.Shape, View.Masks;
      if confirmed { liveGen := gen; }
      model := IndexClient.Arrive(model, outcome, confirmed, gen);
    }

    /** What a result of a load is: nothing, the very set that is live, or another. */
    ghost function OutcomeOf(result: KeySet?): Outcome
      reads this, if result == null then {} else {result, result.keys, result.keys.buf}
      requires result != null ==> result.Valid()
    {
      if result == null then Nothing else if result == keys then LiveSet else NewSet(result.Value())
    }

    /** adoptIndex. */
    method AdoptIndex(result: KeySet?, confirmed: bool)
      requires Valid() && journal.Journal?
      requires result != null ==> result.Valid() && (result == keys || Apart(keys, result))
      modifies this, if result == null then {} else {result, result.keys, result.keys.buf}
      ensures Valid() && (keys == old(keys) || keys == result)
      ensures model == AdoptAs(old(model), old(OutcomeOf(result)), confirmed)
    {
      hide HashSet.Valid, HashSet.Contents, HashSet.Shape, View.Masks, View.Plus, View.Minus;
      var j := journal;
      ghost var outcome, was := OutcomeOf(result), model;
      journal := NoJournal;
      model := AdoptAs(was, outcome, confirmed);
      if result == null { return; }
      authoritative := confirmed;
      if result == keys { return; }
      ReplayAdds(result, j.added);
      ReplayDrops(result, j.dropped);
      keys := result;
    }

    /** The locked section of refreshLiveDelta. */
    method LiveDelta(added: KeySet, to: Gen)
      requires Valid() && added.Valid() && Apart(keys, added) && model.asking
      modifies this, keys, keys.keys, keys.keys.buf
      ensures Valid() && keys == old(keys)
      ensures model == IndexClient.LiveDelta(old(model), old(added.Value()), to)
    {
      hide HashSet.Valid, HashSet.Contents, HashSet.Shape, View.PlusAll, View.Masks;
      ghost var o := added.Value();
      keys.AddAll(added);
      liveGen := to;
      model := IndexClient.LiveDelta(model, o, to);
    }

    /** keyKnown. */
    method Known(h: Hash) returns (found: bool)
      requires Valid()
      ensures found <==> model.keys.Has(h)
    {
      found := keys.Contains(h);
    }

    /** Whether a lookup of h may miss without asking the server. */
    method Absent(h: Hash) returns (absent: bool)
      requires Valid()
      ensures absent <==> model.authoritative && !model.keys.Has(h)
    {
      var known := Known(h);
      absent := authoritative && !known;
    }
  }

  /** Claims every hash of a set, in any order. */
  method ReplayAdds(keys: KeySet, hashes: set<Hash>)
    requires keys.Valid()
    modifies keys.keys, keys.keys.buf
    ensures keys.Valid() && (keys.keys.buf == old(keys.keys.buf) || fresh(keys.keys.buf))
    ensures keys.Value() == View(old(keys.Value()).members + KeysAt(hashes, keys.shift), keys.shift)
  {
    hide HashSet.Valid, HashSet.Contents, HashSet.Shape, KeyAt, View.Masks;
    ghost var was := keys.Value().members;
    var rest := hashes;
    while rest != {}
      invariant keys.Valid() && rest <= hashes && (keys.keys.buf == old(keys.keys.buf) || fresh(keys.keys.buf))
      invariant keys.Value() == View(was + KeysAt(hashes - rest, keys.shift), keys.shift)
      decreases |rest|
    {
      var h :| h in rest;
      assert KeysAt(hashes - (rest - {h}), keys.shift) == KeysAt(hashes - rest, keys.shift) + {KeyAt(h, keys.shift)};
      keys.Add(h);
      rest := rest - {h};
    }
    assert hashes - rest == hashes;
  }

  /** Drops every hash of a set, in any order. */
  method ReplayDrops(keys: KeySet, hashes: set<Hash>)
    requires keys.Valid()
    modifies keys.keys, keys.keys.buf
    ensures keys.Valid() && (keys.keys.buf == old(keys.keys.buf) || fresh(keys.keys.buf))
    ensures keys.Value() == View(old(keys.Value()).members - KeysAt(hashes, keys.shift), keys.shift)
  {
    hide HashSet.Valid, HashSet.Contents, HashSet.Shape, KeyAt, View.Masks;
    ghost var was := keys.Value().members;
    var rest := hashes;
    while rest != {}
      invariant keys.Valid() && rest <= hashes && (keys.keys.buf == old(keys.keys.buf) || fresh(keys.keys.buf))
      invariant keys.Value() == View(was - KeysAt(hashes - rest, keys.shift), keys.shift)
      decreases |rest|
    {
      var h :| h in rest;
      assert KeysAt(hashes - (rest - {h}), keys.shift) == KeysAt(hashes - rest, keys.shift) + {KeyAt(h, keys.shift)};
      keys.Remove(h);
      rest := rest - {h};
    }
    assert hashes - rest == hashes;
  }
}
