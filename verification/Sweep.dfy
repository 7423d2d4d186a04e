/**
 The eviction pass on a store that others may change at any moment: victims leave the index in
 batches, each file is looked at again, and then it goes.

 Between any two of its steps the rest of the program may do anything to the store; `others` is
 what it does. A quiet store is one that it leaves alone.
 */
module Sweep {
  import opened Eviction

  /** The files, and the index: its sorted list and its buffer, as the keys they stand for. */
  datatype Store = Store(files: map<string, Obj>, listed: set<string>, pending: set<string>) {
    function Advertised(): set<string> { listed + pending }
  }

  type Others = (nat, Store) -> Store

  ghost predicate Quiet(others: Others) {
    forall n, s :: others(n, s) == s
  }

  /** What the sweep did, in order. seen is the time the walk saw the file with. */
  datatype Event = Unadvertise(keys: set<string>) | Checked(key: string, seen: int) | Delete(key: string, seen: int)

  ghost predicate Hidden(trace: seq<Event>, key: string) {
    exists j | 0 <= j < |trace| :: trace[j].Unadvertise? && key in trace[j].keys
  }

  /** A deletion comes after its key left the index, and right after the file was found as the walk saw it. */
  ghost predicate LawfulAt(trace: seq<Event>, i: nat)
    requires i < |trace| && trace[i].Delete?
  {
    && Hidden(trace[..i], trace[i].key)
    && (trace[i].seen > 0 ==> i > 0 && trace[i - 1] == Checked(trace[i].key, trace[i].seen))
  }

  ghost predicate Lawful(trace: seq<Event>) {
    forall i | 0 <= i < |trace| && trace[i].Delete? :: LawfulAt(trace, i)
  }

  /** The deletions, in order. */
  ghost function Deleted(trace: seq<Event>): seq<(string, int)> {
    if trace == [] then [] else
    var n := |trace| - 1;
    Deleted(trace[..n]) + if trace[n].Delete? then [(trace[n].key, trace[n].seen)] else []
  }

  ghost function Names(gone: seq<Victim>): seq<(string, int)> {
    seq(|gone|, i requires 0 <= i < |gone| => (gone[i].key, gone[i].mtime))
  }

  lemma {:induction false} Snoc(trace: seq<Event>, e: Event)
    requires Lawful(trace)
    requires e.Delete? ==>
               Hidden(trace, e.key) && (e.seen > 0 ==> trace != [] && trace[|trace| - 1] == Checked(e.key, e.seen))
    ensures Lawful(trace + [e])
    ensures Deleted(trace + [e]) == Deleted(trace) + if e.Delete? then [(e.key, e.seen)] else []
    ensures forall k | Hidden(trace, k) || (e.Unadvertise? && k in e.keys) :: Hidden(trace + [e], k)
  {
    var t := trace + [e];
    assert t[..|trace|] == trace;
    forall i | 0 <= i < |t| && t[i].Delete?
      ensures LawfulAt(t, i)
    {
      if i < |trace| {
        assert LawfulAt(trace, i) && t[..i] == trace[..i];
      }
    }
    forall k | Hidden(trace, k) || (e.Unadvertise? && k in e.keys)
      ensures Hidden(t, k)
    {
      HiddenSnoc(trace, e, k);
    }
  }

  lemma HiddenSnoc(trace: seq<Event>, e: Event, key: string)
    requires Hidden(trace, key) || (e.Unadvertise? && key in e.keys)
    ensures Hidden(trace + [e], key)
  {
    var t := trace + [e];
    if Hidden(trace, key) {
      var j :| 0 <= j < |trace| && trace[j].Unadvertise? && key in trace[j].keys;
      assert t[j] == trace[j];
    } else {
      assert t[|trace|] == e;
    }
  }

  /** What a sweep did since was: it deleted exactly `gone`, lawfully, and all of those were picked. */
  ghost predicate Did(was: seq<Event>, now: seq<Event>, gone: seq<Victim>, picked: seq<Victim>) {
    && Lawful(now) && Deleted(now) == Deleted(was) + Names(gone)
    && forall i | 0 <= i < |gone| :: gone[i] in picked
  }

  /** The action keys that a walk of these files finds. */
  function Walked(files: map<string, Obj>, hashed: string -> bool): set<string> {
    set k | k in files && hashed(k)
  }

  class Storage {
    var files: map<string, Obj>
    var listed: set<string>
    var pending: set<string>
    var clock: nat
    ghost var trace: seq<Event>

    function Now(): Store
      reads this
    {
      Store(files, listed, pending)
    }

    /** The rest of the program has its turn. */
    method Elsewhere(others: Others)
      modifies `files, `listed, `pending, `clock
      ensures Now() == others(old(clock), old(Now()))
    {
      var s := others(clock, Now());
      files, listed, pending, clock := s.files, s.listed, s.pending, clock + 1;
    }

    /** evictOne: an object written again since the walk is not a victim any more. */
    method EvictOne(key: string, mtime: int, others: Others) returns (gone: bool)
      requires Lawful(trace) && Hidden(trace, key)
      modifies `files, `listed, `pending, `clock, `trace
      ensures Lawful(trace) && forall k | old(Hidden(trace, k)) :: Hidden(trace, k)
      ensures Deleted(trace) == old(Deleted(trace)) + if gone then [(key, mtime)] else []
      ensures Quiet(others) ==>
                && (gone <==> key in old(files) && (mtime <= 0 || old(files)[key].mtime == mtime))
                && Now() == old(Now()).(files := if gone then old(files) - {key} else old(files))
    {
      hide Lawful, Deleted, Hidden;
      Elsewhere(others);
      if mtime > 0 {
        if key !in files { return false; }
        if files[key].mtime != mtime { return false; }
        Snoc(trace, Checked(key, mtime));
        trace := trace + [Checked(key, mtime)];
      }
      Elsewhere(others);
      if key !in files { return false; }
      files := files - {key};
      Snoc(trace, Delete(key, mtime));
      trace := trace + [Delete(key, mtime)];
      gone := true;
    }

    /** One batch: out of the index, then off the disk, each file that is still as it was seen. */
    method Flush(batch: seq<Victim>, stats: Stats, others: Others) returns (r: Stats, ghost gone: seq<Victim>)
      requires Lawful(trace)
      modifies this
      ensures Did(old(trace), trace, gone, batch) && r == Tally(stats, gone)
      ensures Quiet(others) ==>
                && listed == old(listed) - Keys(batch) && pending == old(pending) - Keys(batch)
                && (Current(batch, old(files)) ==> gone == batch && files == old(files) - Keys(batch))
    {
      hide Lawful, Deleted, Hidden, Current;
      r, gone := stats, [];
      TallyNothing(stats);
      if |batch| == 0 { return; }
      var keys := set v | v in batch :: v.key;
      Elsewhere(others);
      listed, pending := listed - keys, pending - keys;
      Snoc(trace, Unadvertise(keys));
      trace := trace + [Unadvertise(keys)];
      r, gone := DeleteAll(batch, stats, others);
    }

    method DeleteAll(batch: seq<Victim>, stats: Stats, others: Others) returns (r: Stats, ghost gone: seq<Victim>)
      requires Lawful(trace) && forall k | k in Keys(batch) :: Hidden(trace, k)
      modifies `files, `listed, `pending, `clock, `trace
      ensures Did(old(trace), trace, gone, batch) && r == Tally(stats, gone)
      ensures Quiet(others) ==>
                && listed == old(listed) && pending == old(pending)
                && (Current(batch, old(files)) ==> gone == batch && files == old(files) - Keys(batch))
    {
      hide Lawful, Deleted, Hidden, Tally, Keys;
      r, gone := stats, [];
      TallyNothing(stats);
      for i := 0 to |batch|
        invariant Did(old(trace), trace, gone, batch) && r == Tally(stats, gone)
        invariant forall k | k in Keys(batch) :: Hidden(trace, k)
        invariant Quiet(others) ==>
                    && listed == old(listed) && pending == old(pending)
                    && (Current(batch, old(files)) ==> gone == batch[..i] && files == old(files) - Keys(batch[..i]))
      {
        var v := batch[i];
        TallyNext(stats, batch, i);
        var ok := EvictOne(v.key, v.mtime, others);
        if !ok { continue; }
        TallySnoc(stats, gone, v);
        r := if v.byAge then r.(byAge := r.byAge + 1) else r.(bySize := r.bySize + 1);
        r := r.(freed := r.freed + v.size);
        NamesSnoc(gone, v);
        gone := gone + [v];
        assert batch[..i + 1] == batch[..i] + [v];
      }
      assert batch[..|batch|] == batch;
    }

    /**
     sweepBelow. Whatever others do, what it deletes was last used before the cutoff when the walk
     saw it, and is counted once. On a quiet store it deletes all of that.
     */
    method SweepBelow(walk: seq<Obj>, cutoff: int, ageCutoff: int, stats: Stats, others: Others)
      returns (r: Stats, ghost gone: seq<Victim>)
      requires Lawful(trace)
      modifies this
      ensures Did(old(trace), trace, gone, Batch(walk, cutoff, ageCutoff)) && r == Tally(stats, gone)
      ensures Quiet(others) && Lists(walk, old(files)) ==>
                gone == Batch(walk, cutoff, ageCutoff) && Without(old(Now()), Keys(gone), Now())
    {
      hide LastUsed, Lawful, Lists, Current, Tally, Keys, VictimOf, Did, Deleted;
      ghost var picked := Batch(walk, cutoff, ageCutoff);
      ghost var calm := Quiet(others) && Lists(walk, files);
      if calm { BatchCurrent(walk, cutoff, ageCutoff, files); }
      TallyNothing(stats);
      DidNothing(trace, picked);
      r, gone := stats, [];
      var batch: seq<Victim> := [];
      for i := 0 to |walk|
        invariant Did(old(trace), trace, gone, picked) && Lawful(trace) && r == Tally(stats, gone)
        invariant Batch(walk[..i], cutoff, ageCutoff) <= picked && forall v | v in batch :: v in picked
        invariant calm ==> gone + batch == Batch(walk[..i], cutoff, ageCutoff) && Without(old(Now()), Keys(gone), Now())
      {
        var o := walk[i];
        BatchPrefix(walk, i, cutoff, ageCutoff);
        if LastUsed(o) >= cutoff { continue; }
        BatchLast(walk, i, cutoff, ageCutoff);
        batch := batch + [VictimOf(o, ageCutoff)];
        if |batch| >= BATCH_SIZE {
          ghost var more;
          if calm { CurrentPrefix(gone + batch, picked, old(files)); }
          r, more := FlushMore(batch, r, others, stats, gone, picked, old(trace), old(Now()), calm);
          gone, batch := gone + more, [];
        }
      }
      assert walk[..|walk|] == walk;
      ghost var more;
      r, more := FlushMore(batch, r, others, stats, gone, picked, old(trace), old(Now()), calm);
      gone := gone + more;
    }

    /** A flush in the middle of a sweep: what it adds to what the sweep did before. */
    method FlushMore(batch: seq<Victim>, soFar: Stats, others: Others, ghost stats: Stats, ghost gone: seq<Victim>,
                     ghost picked: seq<Victim>, ghost was: seq<Event>, ghost start: Store, ghost calm: bool)
      returns (r: Stats, ghost more: seq<Victim>)
      requires Lawful(trace) && Did(was, trace, gone, picked) && soFar == Tally(stats, gone)
      requires (forall v | v in batch :: v in picked) && (calm ==> Quiet(others))
      requires calm ==> Without(start, Keys(gone), Now()) && Current(gone + batch, start.files)
      modifies this
      ensures Lawful(trace) && Did(was, trace, gone + more, picked) && r == Tally(stats, gone + more)
      ensures calm ==> more == batch && Without(start, Keys(gone + batch), Now())
    {
      hide Lawful, Current, Tally, Keys, Did;
      ghost var before := trace;
      if calm { CurrentRest(gone, batch, start.files); }
      r, more := Flush(batch, soFar, others);
      TallyConcat(stats, gone, more);
      DidMore(was, before, trace, gone, more, picked, batch);
    }

    /**
     Evict. The cutoff frees enough and, in its size part, is no higher than it has to be. Whatever
     others do, every deletion is of a file that was last used before it when it was seen. On a
     quiet store it leaves exactly the objects last used at the cutoff or later; with a limit they
     fit it; the bytes reported freed and those left make up those there were; and the index is that
     of the files left, without any victim.
     */
    method Evict(first: seq<Obj>, second: seq<Obj>, maxAgeNanos: int, maxBytes: int, now: int,
                 hashed: string -> bool, others: Others)
      returns (stats: Stats, ghost cutoff: int, ghost sizeCutoff: int, ghost gone: seq<Victim>)
      requires Lawful(trace)
      modifies this
      ensures cutoff == Max(AgeCutoff(maxAgeNanos, now), sizeCutoff)
      ensures if maxBytes > 0 && Total(first) > maxBytes then CutsEnough(first, maxBytes, sizeCutoff) else sizeCutoff == 0
      ensures Did(old(trace), trace, gone, Batch(second, cutoff, AgeCutoff(maxAgeNanos, now)))
      ensures stats == Tally(Stats(|first|, 0, 0, 0, Total(first)), gone)
      ensures forall v | v in gone :: exists o | o in second :: Deserved(v, o, maxAgeNanos, now, sizeCutoff)
      ensures Quiet(others) && first == second && Lists(first, old(files)) ==>
                && Lists(Survivors(first, cutoff), files)
                && (forall o | o in first ::
                      o.key in files <==> !TooOld(o, maxAgeNanos, now) && LastUsed(o) >= sizeCutoff)
                && stats.byAge == CountOld(first, maxAgeNanos, now)
                && (maxBytes > 0 ==> Total(Survivors(first, cutoff)) <= maxBytes)
                && stats.freed + Total(Survivors(first, cutoff)) == Total(first)
                && |gone| == |Victims(first, cutoff)|
                && listed == (if gone == [] then old(listed) else Walked(files, hashed))
                && pending == old(pending) - Keys(gone)
                && forall k | k in Keys(gone) :: k !in Now().Advertised()
    {
      hide LastUsed, Lawful, Lists, Measures, Keys, CutsEnough, Did, Without, Current, TooOld, Deserved, AgeCutoff;
      var scanned, total, histogram := Scan(first, maxBytes > 0);
      stats := Stats(scanned, 0, 0, 0, total);
      var ageCutoff := AgeCutoff(maxAgeNanos, now);
      var size := SizeCutoff(total, histogram, maxBytes, first);
      var cut := Max(ageCutoff, size);
      cutoff, sizeCutoff, gone := cut, size, [];
      QuietFacts(first, maxBytes, size, cut, ageCutoff);
      AgedIsOld(first, cut, maxAgeNanos, now);
      DidNothing(trace, Batch(second, cutoff, ageCutoff));
      TallyNothing(stats);
      if cut > 0 {
        stats, gone := SweepBelow(second, cut, ageCutoff, stats, others);
      } else {
        NothingGoes(first, cutoff, ageCutoff);
        WithoutNothing(Now());
      }
      ghost var calm := Quiet(others) && first == second && Lists(first, old(files));
      ghost var swept := Now();
      AllDeserved(old(trace), trace, gone, second, maxAgeNanos, now, size);
      if calm { SweptListed(first, maxAgeNanos, now, size, old(Now()), swept); }
      Elsewhere(others);
      if stats.byAge + stats.bySize > 0 { Rebuild(hashed, others); }
      TallyCounts(Stats(|first|, 0, 0, 0, Total(first)), gone);
      if calm { NoneAdvertised(old(Now()), swept, Now(), gone, hashed); }
    }

    /** The index is built again from a walk of the store; its buffer stays. */
    method Rebuild(hashed: string -> bool, others: Others)
      modifies `files, `listed, `pending, `clock
      ensures Quiet(others) ==> Now() == old(Now()).(listed := Walked(old(files), hashed))
    {
      var walked := Walked(files, hashed);
      Elsewhere(others);
      listed := walked;
    }
  }

  /** The store without some keys, in its files and in its index. */
  ghost predicate Without(was: Store, keys: set<string>, now: Store) {
    now == Store(was.files - keys, was.listed - keys, was.pending - keys)
  }

  lemma WithoutNothing(s: Store)
    ensures Without(s, Keys([]), s)
  {
  }

  lemma DidNothing(trace: seq<Event>, picked: seq<Victim>)
    requires Lawful(trace)
    ensures Did(trace, trace, [], picked)
  {
  }

  lemma {:induction false} DidMore(was: seq<Event>, mid: seq<Event>, now: seq<Event>, gone: seq<Victim>, more: seq<Victim>,
                                   picked: seq<Victim>, batch: seq<Victim>)
    requires Did(was, mid, gone, picked) && Did(mid, now, more, batch) && forall v | v in batch :: v in picked
    ensures Did(was, now, gone + more, picked) && Lawful(now)
  {
    hide Lawful, Deleted;
    assert Names(gone + more) == Names(gone) + Names(more);
  }

  lemma {:induction false} BatchLast(walk: seq<Obj>, i: nat, cutoff: int, ageCutoff: int)
    requires i < |walk| && LastUsed(walk[i]) < cutoff
    ensures VictimOf(walk[i], ageCutoff) in Batch(walk, cutoff, ageCutoff)
  {
    hide LastUsed, Batch;
    BatchPrefix(walk, i, cutoff, ageCutoff);
    var some, all := Batch(walk[..i + 1], cutoff, ageCutoff), Batch(walk, cutoff, ageCutoff);
    assert some[|some| - 1] == all[|some| - 1];
  }

  /** What the cutoff does to a store as the first walk saw it. */
  lemma {:induction false} QuietFacts(walk: seq<Obj>, maxBytes: int, sizeCutoff: int, cutoff: int, ageCutoff: int)
    requires sizeCutoff <= cutoff && (maxBytes > 0 && Total(walk) > maxBytes ==> CutsEnough(walk, maxBytes, sizeCutoff))
    ensures maxBytes > 0 ==> Total(Survivors(walk, cutoff)) <= maxBytes
    ensures FreedBy(Batch(walk, cutoff, ageCutoff)) + Total(Survivors(walk, cutoff)) == Total(walk)
    ensures |Batch(walk, cutoff, ageCutoff)| == |Victims(walk, cutoff)|
  {
    hide LastUsed, CutsEnough;
    BytesConserved(walk, cutoff);
    BatchIsVictims(walk, cutoff, ageCutoff);
    if maxBytes > 0 { EnoughGoes(walk, maxBytes, sizeCutoff, cutoff); }
  }

  /** The victim is that object as the walk saw it, past a limit, and marked by whether by age. */
  ghost predicate Deserved(v: Victim, o: Obj, maxAgeNanos: int, now: int, sizeCutoff: int) {
    && v == Victim(o.key, o.size, o.mtime, TooOld(o, maxAgeNanos, now))
    && (TooOld(o, maxAgeNanos, now) || LastUsed(o) < sizeCutoff)
  }

  lemma {:induction false} BatchDeserved(walk: seq<Obj>, v: Victim, maxAgeNanos: int, now: int, sizeCutoff: int)
    requires v in Batch(walk, Max(AgeCutoff(maxAgeNanos, now), sizeCutoff), AgeCutoff(maxAgeNanos, now))
    ensures exists o | o in walk :: Deserved(v, o, maxAgeNanos, now, sizeCutoff)
  {
    hide LastUsed, Batch, Victims, AgeCutoff, TooOld;
    var age := AgeCutoff(maxAgeNanos, now);
    var cutoff := Max(age, sizeCutoff);
    var all, objs := Batch(walk, cutoff, age), Victims(walk, cutoff);
    BatchIsVictims(walk, cutoff, age);
    var i :| 0 <= i < |all| && all[i] == v;
    SurvivorIff(walk, cutoff, objs[i]);
    OldIff(objs[i], maxAgeNanos, now);
    assert Deserved(v, objs[i], maxAgeNanos, now, sizeCutoff);
  }

  lemma {:induction false} AllDeserved(was: seq<Event>, trace: seq<Event>, gone: seq<Victim>, walk: seq<Obj>,
                                       maxAgeNanos: int, now: int, sizeCutoff: int)
    requires Did(was, trace, gone, Batch(walk, Max(AgeCutoff(maxAgeNanos, now), sizeCutoff), AgeCutoff(maxAgeNanos, now)))
    ensures forall v | v in gone :: exists o | o in walk :: Deserved(v, o, maxAgeNanos, now, sizeCutoff)
  {
    hide Lawful, Deleted, Batch, AgeCutoff, Deserved;
    forall v | v in gone
      ensures exists o | o in walk :: Deserved(v, o, maxAgeNanos, now, sizeCutoff)
    {
      BatchDeserved(walk, v, maxAgeNanos, now, sizeCutoff);
    }
  }

  lemma {:induction false} SweptListed(walk: seq<Obj>, maxAgeNanos: int, now: int, sizeCutoff: int, was: Store, swept: Store)
    requires var age := AgeCutoff(maxAgeNanos, now);
             Lists(walk, was.files) && Without(was, Keys(Batch(walk, Max(age, sizeCutoff), age)), swept)
    ensures Lists(Survivors(walk, Max(AgeCutoff(maxAgeNanos, now), sizeCutoff)), swept.files)
    ensures forall o | o in walk ::
              o.key in swept.files <==> !TooOld(o, maxAgeNanos, now) && LastUsed(o) >= sizeCutoff
  {
    hide LastUsed, Lists, Keys, AgeCutoff, TooOld;
    var age := AgeCutoff(maxAgeNanos, now);
    SurvivorsListed(walk, Max(age, sizeCutoff), age, was.files);
    forall o | o in walk
      ensures o.key in swept.files <==> !TooOld(o, maxAgeNanos, now) && LastUsed(o) >= sizeCutoff
    {
      GoneIff(walk, Max(age, sizeCutoff), age, was.files, o);
      OldIff(o, maxAgeNanos, now);
      InFiles(walk, was.files, o);
    }
  }

  lemma InFiles(walk: seq<Obj>, files: map<string, Obj>, o: Obj)
    requires Lists(walk, files) && o in walk
    ensures o.key in files
  {
  }

  lemma {:induction false} TallyCounts(stats: Stats, gone: seq<Victim>)
    ensures Tally(stats, gone).byAge + Tally(stats, gone).bySize == stats.byAge + stats.bySize + |gone|
  {
    if gone != [] {
      var n := |gone| - 1;
      TallyCounts(stats, gone[..n]);
      assert gone[..n] + [gone[n]] == gone;
      TallySnoc(stats, gone[..n], gone[n]);
    } else {
      TallyNothing(stats);
    }
  }

  lemma NoneAdvertised(was: Store, swept: Store, now: Store, gone: seq<Victim>, hashed: string -> bool)
    requires Without(was, Keys(gone), swept)
    requires now == if gone == [] then swept else swept.(listed := Walked(swept.files, hashed))
    ensures now.pending == was.pending - Keys(gone) && (gone == [] ==> now.listed == was.listed)
    ensures forall k | k in Keys(gone) :: k !in now.Advertised()
  {
  }

  lemma NamesSnoc(gone: seq<Victim>, v: Victim)
    ensures Names(gone + [v]) == Names(gone) + [(v.key, v.mtime)]
  {
  }

  lemma TallySnoc(stats: Stats, gone: seq<Victim>, v: Victim)
    ensures var t := Tally(stats, gone);
            Tally(stats, gone + [v]) == t.(freed := t.freed + v.size, byAge := t.byAge + (if v.byAge then 1 else 0),
                                           bySize := t.bySize + (if v.byAge then 0 else 1))
  {
    assert (gone + [v])[..|gone|] == gone && (gone + [v])[..|gone| + 1] == gone + [v];
    TallyNext(stats, gone + [v], |gone|);
  }
}
