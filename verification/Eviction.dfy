/**
 Where an eviction pass cuts: a histogram of last uses gives one cutoff, and what was last used
 before it goes.
 */
module Eviction {
  import opened Options
  import opened Sorted
  import SortedSet

  /**
   A stored object. mtime and atime are what the file system says; recorded is the last access
   this process noted, and zero when it noted none.
   */
  datatype Obj = Obj(key: string, size: nat, mtime: int, atime: Option<int>, recorded: nat)

  const BUCKET_SECONDS := 600
  const BATCH_SIZE := 65536

  /** The latest of the write, the file system's access time and the access this process noted. */
  function LastUsed(o: Obj): (r: int)
    ensures r >= o.mtime && r >= o.recorded && (o.atime.Some? ==> r >= o.atime.value)
    ensures r == o.mtime || r == o.recorded || (o.atime.Some? && r == o.atime.value)
  {
    var used := if o.atime.Some? && o.atime.value > o.mtime then o.atime.value else o.mtime;
    if o.recorded > used then o.recorded else used
  }

  /** Division as the source's language does it, toward zero. */
  function TruncDiv(x: int, d: nat): int
    requires d > 0
  {
    if x >= 0 then x / d else -(-x / d)
  }

  function Bucket(o: Obj): int {
    TruncDiv(LastUsed(o), BUCKET_SECONDS)
  }

  function Total(objs: seq<Obj>): nat {
    if objs == [] then 0 else
    var n := |objs| - 1;
    Total(objs[..n]) + objs[n].size
  }

  /** The bytes last used before a time. */
  function Below(objs: seq<Obj>, t: int): nat {
    if objs == [] then 0 else
    var n := |objs| - 1;
    Below(objs[..n], t) + if LastUsed(objs[n]) < t then objs[n].size else 0
  }

  /** The bytes in some buckets. */
  ghost function InBuckets(objs: seq<Obj>, bs: set<int>): nat {
    if objs == [] then 0 else
    var n := |objs| - 1;
    InBuckets(objs[..n], bs) + if Bucket(objs[n]) in bs then objs[n].size else 0
  }

  function Survivors(objs: seq<Obj>, t: int): seq<Obj> {
    if objs == [] then [] else
    var n := |objs| - 1;
    Survivors(objs[..n], t) + if LastUsed(objs[n]) < t then [] else [objs[n]]
  }

  function Victims(objs: seq<Obj>, t: int): seq<Obj> {
    if objs == [] then [] else
    var n := |objs| - 1;
    Victims(objs[..n], t) + if LastUsed(objs[n]) < t then [objs[n]] else []
  }

  lemma TotalSnoc(objs: seq<Obj>, o: Obj)
    ensures Total(objs + [o]) == Total(objs) + o.size
  {
    assert (objs + [o])[..|objs|] == objs;
  }

  lemma NoObjs(t: int)
    ensures Survivors([], t) == [] && Victims([], t) == [] && Below([], t) == 0 && Total([]) == 0
  {
  }

  lemma LastGoes(objs: seq<Obj>, t: int)
    requires objs != []
    ensures var (front, o) := (objs[..|objs| - 1], objs[|objs| - 1]);
            && Survivors(objs, t) == (if LastUsed(o) < t then Survivors(front, t) else Survivors(front, t) + [o])
            && Victims(objs, t) == (if LastUsed(o) < t then Victims(front, t) + [o] else Victims(front, t))
            && Below(objs, t) == Below(front, t) + (if LastUsed(o) < t then o.size else 0)
            && Total(objs) == Total(front) + o.size
  {
    hide LastUsed;
  }

  /** No byte is lost: what stays and what goes make up what was there. */
  lemma {:induction false} BytesConserved(objs: seq<Obj>, t: int)
    ensures Total(Survivors(objs, t)) + Total(Victims(objs, t)) == Total(objs)
    ensures Total(Victims(objs, t)) == Below(objs, t)
  {
    hide LastUsed, Survivors, Victims, Total, Below;
    if objs == [] {
      NoObjs(t);
    } else {
      var n := |objs| - 1;
      LastGoes(objs, t);
      BytesConserved(objs[..n], t);
      TotalSnoc(Survivors(objs[..n], t), objs[n]);
      TotalSnoc(Victims(objs[..n], t), objs[n]);
    }
  }

  lemma {:induction false} SurvivorIff(objs: seq<Obj>, t: int, o: Obj)
    ensures o in Survivors(objs, t) <==> o in objs && LastUsed(o) >= t
    ensures o in Victims(objs, t) <==> o in objs && LastUsed(o) < t
  {
    hide LastUsed;
    if objs != [] {
      var n := |objs| - 1;
      SurvivorIff(objs[..n], t, o);
      assert o in objs <==> o == objs[n] || o in objs[..n];
    }
  }

  lemma {:induction false} BucketAdds(objs: seq<Obj>, bs: set<int>, b: int)
    requires b !in bs
    ensures InBuckets(objs, bs + {b}) == InBuckets(objs, bs) + InBuckets(objs, {b})
  {
    hide Bucket;
    if objs != [] { BucketAdds(objs[..|objs| - 1], bs, b); }
  }

  /** The buckets up to b hold exactly the bytes last used before b's upper edge. */
  lemma {:induction false} BucketEdge(objs: seq<Obj>, bs: set<int>, b: int)
    requires forall o | o in objs :: Bucket(o) in bs <==> Bucket(o) <= b
    ensures InBuckets(objs, bs) == Below(objs, (b + 1) * BUCKET_SECONDS)
  {
    if objs != [] {
      var n := |objs| - 1;
      BucketEdge(objs[..n], bs, b);
      assert objs[n] in objs;
    }
  }

  lemma {:induction false} AllBuckets(objs: seq<Obj>, bs: set<int>)
    requires forall o | o in objs :: Bucket(o) in bs
    ensures InBuckets(objs, bs) == Total(objs)
  {
    hide Bucket;
    if objs != [] {
      var n := |objs| - 1;
      AllBuckets(objs[..n], bs);
      assert objs[n] in objs;
    }
  }

  lemma {:induction false} NoBucket(objs: seq<Obj>, bs: set<int>)
    requires forall o | o in objs :: Bucket(o) !in bs
    ensures InBuckets(objs, bs) == 0
  {
    hide Bucket;
    if objs != [] {
      var n := |objs| - 1;
      NoBucket(objs[..n], bs);
      assert objs[n] in objs;
    }
  }

  /** A histogram: the buckets some object falls in, each with the bytes in it. */
  ghost predicate Measures(histogram: map<int, nat>, objs: seq<Obj>) {
    && (forall o | o in objs :: Bucket(o) in histogram)
    && (forall b | b in histogram :: histogram[b] == InBuckets(objs, {b}))
  }

  function Counted(histogram: map<int, nat>, o: Obj): map<int, nat> {
    histogram[Bucket(o) := (if Bucket(o) in histogram then histogram[Bucket(o)] else 0) + o.size]
  }

  lemma {:induction false} MeasuresNext(histogram: map<int, nat>, objs: seq<Obj>, o: Obj)
    requires Measures(histogram, objs)
    ensures Measures(Counted(histogram, o), objs + [o])
  {
    hide Bucket;
    assert (objs + [o])[..|objs|] == objs;
    if Bucket(o) !in histogram { NoBucket(objs, {Bucket(o)}); }
  }

  /** scanForEviction. */
  method Scan(walk: seq<Obj>, needHistogram: bool) returns (scanned: nat, total: nat, histogram: map<int, nat>)
    ensures scanned == |walk| && total == Total(walk)
    ensures histogram == map[] || needHistogram
    ensures needHistogram ==> Measures(histogram, walk)
  {
    hide Bucket, Measures, Counted;
    scanned, total, histogram := 0, 0, map[];
    assert Measures(map[], []) by { NothingMeasured(); }
    for i := 0 to |walk|
      invariant scanned == i && total == Total(walk[..i])
      invariant if needHistogram then Measures(histogram, walk[..i]) else histogram == map[]
    {
      var o := walk[i];
      assert walk[..i + 1] == walk[..i] + [o];
      TotalSnoc(walk[..i], o);
      scanned, total := scanned + 1, total + o.size;
      if needHistogram {
        MeasuresNext(histogram, walk[..i], o);
        histogram := Counted(histogram, o);
      }
    }
    assert walk[..|walk|] == walk;
  }

  lemma NothingMeasured()
    ensures Measures(map[], [])
  {
  }

  /** The first i buckets in order are those up to the last of them, or below the next. */
  lemma {:induction false} PrefixBuckets(buckets: seq<int>, i: nat, walk: seq<Obj>)
    requires Strict(buckets) && i < |buckets| && forall o | o in walk :: Bucket(o) in Elements(buckets)
    ensures InBuckets(walk, Elements(buckets[..i])) == Below(walk, buckets[i] * BUCKET_SECONDS)
    ensures InBuckets(walk, Elements(buckets[..i + 1])) == Below(walk, (buckets[i] + 1) * BUCKET_SECONDS)
    ensures InBuckets(walk, Elements(buckets[..i + 1])) ==
            InBuckets(walk, Elements(buckets[..i])) + InBuckets(walk, {buckets[i]})
  {
    hide Bucket;
    var b := buckets[i];
    assert buckets[..i + 1] == buckets[..i] + [b];
    ElementsSnoc(buckets[..i], b);
    forall o | o in walk
      ensures Bucket(o) in Elements(buckets[..i]) <==> Bucket(o) <= b - 1
    {
      var k :| 0 <= k < |buckets| && buckets[k] == Bucket(o);
      assert k < i ==> buckets[..i][k] == Bucket(o);
    }
    forall o | o in walk
      ensures Bucket(o) in Elements(buckets[..i + 1]) <==> Bucket(o) <= b
    {
      var k :| 0 <= k < |buckets| && buckets[k] == Bucket(o);
      assert k < i ==> buckets[..i][k] == Bucket(o);
    }
    BucketEdge(walk, Elements(buckets[..i]), b - 1);
    BucketEdge(walk, Elements(buckets[..i + 1]), b);
    BucketAdds(walk, Elements(buckets[..i]), b);
  }

  /**
   sizeCutoff: the upper edge of a bucket b, such that what was last used before it is enough to
   get within the limit, and what was last used before b is not.
   */
  ghost predicate CutsEnough(walk: seq<Obj>, maxBytes: int, cutoff: int) {
    exists b: int ::
      && b >= 0 && cutoff == (b + 1) * 600
      && Below(walk, b * 600) < Total(walk) - maxBytes <= Below(walk, cutoff)
  }

  method SizeCutoff(total: nat, histogram: map<int, nat>, maxBytes: int, ghost walk: seq<Obj>) returns (cutoff: int)
    requires total == Total(walk) && (maxBytes > 0 ==> Measures(histogram, walk))
    ensures maxBytes <= 0 || Total(walk) <= maxBytes ==> cutoff == 0
    ensures maxBytes > 0 && Total(walk) > maxBytes ==> CutsEnough(walk, maxBytes, cutoff)
  {
    hide Bucket, Strict;
    if maxBytes <= 0 || total <= maxBytes { return 0; }
    var need := total - maxBytes;
    var buckets := SortedSet.SortedValues(histogram.Keys);
    var freed := 0;
    NoBucket(walk, Elements([]));
    for i := 0 to |buckets|
      invariant freed == InBuckets(walk, Elements(buckets[..i])) && freed < need
    {
      var b := buckets[i];
      assert b in Elements(buckets);
      PrefixBuckets(buckets, i, walk);
      freed := freed + histogram[b];
      if freed >= need {
        EdgeIsPositive(walk, b, need);
        return (b + 1) * BUCKET_SECONDS;
      }
    }
    assert buckets[..|buckets|] == buckets;
    AllBuckets(walk, Elements(buckets));
    assert false;
  }

  /** A bucket that frees bytes is not a negative one. */
  lemma {:induction false} EdgeIsPositive(walk: seq<Obj>, b: int, need: nat)
    requires need > 0 && Below(walk, (b + 1) * BUCKET_SECONDS) >= need
    ensures b >= 0
  {
    if b < 0 { NothingBelow(walk, (b + 1) * BUCKET_SECONDS); }
  }

  lemma {:induction false} NothingBelow(walk: seq<Obj>, t: int)
    requires t <= 0
    ensures Below(walk, t) == 0
  {
    if walk != [] { NothingBelow(walk[..|walk| - 1], t); }
  }

  datatype Victim = Victim(key: string, size: nat, mtime: int, byAge: bool)

  datatype Stats = Stats(scanned: nat, byAge: nat, bySize: nat, freed: nat, total: nat)

  /** A listing of the store: every object in it, once. */
  ghost predicate Lists(walk: seq<Obj>, files: map<string, Obj>) {
    && (forall i | 0 <= i < |walk| :: walk[i].key in files && files[walk[i].key] == walk[i])
    && (forall i, j | 0 <= i < j < |walk| :: walk[i].key != walk[j].key)
    && (forall k | k in files :: files[k] in walk && files[k].key == k)
  }

  ghost function Keys(batch: seq<Victim>): set<string> {
    set v | v in batch :: v.key
  }

  function FreedBy(batch: seq<Victim>): nat {
    if batch == [] then 0 else
    var n := |batch| - 1;
    FreedBy(batch[..n]) + batch[n].size
  }

  function AgedIn(batch: seq<Victim>): (n: nat)
    ensures n <= |batch|
  {
    if batch == [] then 0 else
    var n := |batch| - 1;
    AgedIn(batch[..n]) + if batch[n].byAge then 1 else 0
  }

  /** Victims that the store still holds as the walk saw them, each once. */
  ghost predicate Current(batch: seq<Victim>, files: map<string, Obj>) {
    && (forall i | 0 <= i < |batch| :: batch[i].key in files && files[batch[i].key].mtime == batch[i].mtime)
    && (forall i, j | 0 <= i < j < |batch| :: batch[i].key != batch[j].key)
  }

  /** stats with a batch added. */
  function Tally(stats: Stats, batch: seq<Victim>): Stats {
    stats.(byAge := stats.byAge + AgedIn(batch), bySize := stats.bySize + |batch| - AgedIn(batch),
           freed := stats.freed + FreedBy(batch))
  }

  lemma TallyNext(stats: Stats, batch: seq<Victim>, i: nat)
    requires i < |batch|
    ensures var (t, v) := (Tally(stats, batch[..i]), batch[i]);
            Tally(stats, batch[..i + 1]) == t.(freed := t.freed + v.size, byAge := t.byAge + (if v.byAge then 1 else 0),
                                               bySize := t.bySize + (if v.byAge then 0 else 1))
    ensures Keys(batch[..i + 1]) == Keys(batch[..i]) + {batch[i].key} && batch[i].key in Keys(batch)
    ensures batch[i].key in Keys(batch[..i]) ==> exists k | 0 <= k < i :: batch[k].key == batch[i].key
  {
    BatchNext(batch, i);
  }

  lemma TallyNothing(stats: Stats)
    ensures Tally(stats, []) == stats && Keys([]) == {}
  {
  }

  lemma TallyConcat(stats: Stats, a: seq<Victim>, b: seq<Victim>)
    ensures Tally(Tally(stats, a), b) == Tally(stats, a + b) && Keys(a + b) == Keys(a) + Keys(b)
  {
    BatchConcat(a, b);
  }

  /** What the walk puts in its batches. */
  function Batch(walk: seq<Obj>, cutoff: int, ageCutoff: int): seq<Victim> {
    if walk == [] then [] else
    var n := |walk| - 1;
    Batch(walk[..n], cutoff, ageCutoff) + if LastUsed(walk[n]) < cutoff then [VictimOf(walk[n], ageCutoff)] else []
  }

  function VictimOf(o: Obj, ageCutoff: int): Victim {
    Victim(o.key, o.size, o.mtime, ageCutoff > 0 && LastUsed(o) < ageCutoff)
  }

  lemma {:induction false} BatchIsVictims(walk: seq<Obj>, cutoff: int, ageCutoff: int)
    ensures var b, v := Batch(walk, cutoff, ageCutoff), Victims(walk, cutoff);
            |b| == |v| && forall i | 0 <= i < |b| :: b[i] == VictimOf(v[i], ageCutoff)
    ensures FreedBy(Batch(walk, cutoff, ageCutoff)) == Below(walk, cutoff)
  {
    hide LastUsed;
    if walk != [] {
      var n := |walk| - 1;
      BatchIsVictims(walk[..n], cutoff, ageCutoff);
      var front := Batch(walk[..n], cutoff, ageCutoff);
      assert (front + [VictimOf(walk[n], ageCutoff)])[..|front|] == front;
      assert front + [] == front;
    }
  }

  /** The victims of a listing are in it, in order. */
  lemma {:induction false} VictimsOrder(walk: seq<Obj>, cutoff: int, files: map<string, Obj>)
    requires Lists(walk, files)
    ensures var v := Victims(walk, cutoff);
            && (forall i | 0 <= i < |v| :: v[i].key in files && files[v[i].key] == v[i])
            && (forall i, j | 0 <= i < j < |v| :: v[i].key != v[j].key)
  {
    hide LastUsed;
    Pick(walk, cutoff);
  }

  lemma {:induction false} Pick(walk: seq<Obj>, cutoff: int)
    requires forall i, j | 0 <= i < j < |walk| :: walk[i].key != walk[j].key
    ensures var v := Victims(walk, cutoff);
            && (forall i | 0 <= i < |v| :: v[i] in walk)
            && (forall i, j | 0 <= i < j < |v| :: v[i].key != v[j].key)
  {
    hide LastUsed;
    if walk != [] {
      var n := |walk| - 1;
      Pick(walk[..n], cutoff);
      var v := Victims(walk[..n], cutoff);
      forall i | 0 <= i < |v|
        ensures v[i].key != walk[n].key
      {
        SurvivorIff(walk[..n], cutoff, v[i]);
        var k :| 0 <= k < n && walk[..n][k] == v[i];
      }
      var all := Victims(walk, cutoff);
      assert all == v || all == v + [walk[n]];
      forall i | 0 <= i < |all|
        ensures all[i] in walk
      {
        SurvivorIff(walk, cutoff, all[i]);
      }
    }
  }

  lemma NoBatch()
    ensures FreedBy([]) == 0 && AgedIn([]) == 0 && Keys([]) == {}
  {
  }

  lemma {:induction false} BatchConcat(a: seq<Victim>, b: seq<Victim>)
    ensures FreedBy(a + b) == FreedBy(a) + FreedBy(b) && AgedIn(a + b) == AgedIn(a) + AgedIn(b)
    ensures Keys(a + b) == Keys(a) + Keys(b)
  {
    hide FreedBy, AgedIn, Keys;
    if b == [] {
      NoBatch();
      assert a + b == a;
    } else {
      var n := |b| - 1;
      BatchConcat(a, b[..n]);
      BatchNext(b, n);
      BatchNext(a + b, |a| + n);
      assert b[..n + 1] == b && (a + b)[..|a| + n + 1] == a + b && (a + b)[..|a| + n] == a + b[..n];
    }
  }

  lemma {:induction false} BatchCurrent(walk: seq<Obj>, cutoff: int, ageCutoff: int, files: map<string, Obj>)
    requires Lists(walk, files)
    ensures Current(Batch(walk, cutoff, ageCutoff), files)
  {
    hide LastUsed, Lists;
    BatchIsVictims(walk, cutoff, ageCutoff);
    VictimsOrder(walk, cutoff, files);
  }

  lemma CurrentPrefix(some: seq<Victim>, all: seq<Victim>, files: map<string, Obj>)
    requires some <= all && Current(all, files)
    ensures Current(some, files)
  {
    assert forall i | 0 <= i < |some| :: some[i] == all[i];
  }

  lemma {:induction false} BatchPrefix(walk: seq<Obj>, i: nat, cutoff: int, ageCutoff: int)
    requires i < |walk|
    ensures Batch(walk[..i + 1], cutoff, ageCutoff) ==
            Batch(walk[..i], cutoff, ageCutoff) + if LastUsed(walk[i]) < cutoff then [VictimOf(walk[i], ageCutoff)] else []
    ensures Batch(walk[..i + 1], cutoff, ageCutoff) <= Batch(walk, cutoff, ageCutoff)
    decreases |walk| - i
  {
    hide LastUsed;
    assert walk[..i + 1][..i] == walk[..i];
    if i + 1 < |walk| {
      BatchPrefix(walk, i + 1, cutoff, ageCutoff);
    } else {
      assert walk[..i + 1] == walk;
    }
  }

  /** Once the front of a current batch is gone, the rest is current still. */
  lemma CurrentRest(done: seq<Victim>, batch: seq<Victim>, files: map<string, Obj>)
    requires Current(done + batch, files)
    ensures Current(batch, files - Keys(done))
  {
    var all := done + batch;
    forall i | 0 <= i < |batch|
      ensures batch[i].key !in Keys(done) && batch[i].key in files && files[batch[i].key].mtime == batch[i].mtime
    {
      assert batch[i] == all[|done| + i];
      assert forall k | 0 <= k < |done| :: done[k] == all[k];
    }
    forall i, j | 0 <= i < j < |batch|
      ensures batch[i].key != batch[j].key
    {
      assert batch[i] == all[|done| + i] && batch[j] == all[|done| + j];
    }
  }

  lemma BatchNext(batch: seq<Victim>, i: nat)
    requires i < |batch|
    ensures Keys(batch[..i + 1]) == Keys(batch[..i]) + {batch[i].key}
    ensures AgedIn(batch[..i + 1]) == AgedIn(batch[..i]) + (if batch[i].byAge then 1 else 0)
    ensures FreedBy(batch[..i + 1]) == FreedBy(batch[..i]) + batch[i].size
  {
    assert batch[..i + 1][..i] == batch[..i] && batch[..i + 1] == batch[..i] + [batch[i]];
  }

  function Max(a: int, b: int): int {
    if a > b then a else b
  }

  const NANOS := 1_000_000_000

  function AgeCutoff(maxAgeNanos: int, now: int): int {
    if maxAgeNanos > 0 then now - maxAgeNanos / NANOS else 0
  }

  /** There is an age limit, and the object was last used longer ago than that. */
  predicate TooOld(o: Obj, maxAgeNanos: int, now: int) {
    maxAgeNanos > 0 && (now - LastUsed(o)) * 1_000_000_000 > maxAgeNanos
  }

  /** The objects past the age limit. */
  function CountOld(walk: seq<Obj>, maxAgeNanos: int, now: int): nat {
    if walk == [] then 0 else
    var n := |walk| - 1;
    CountOld(walk[..n], maxAgeNanos, now) + if TooOld(walk[n], maxAgeNanos, now) then 1 else 0
  }

  /** Before the cutoff by age is past the limit by age, and such a cutoff is positive. */
  lemma OldIff(o: Obj, maxAgeNanos: int, now: int)
    ensures LastUsed(o) < AgeCutoff(maxAgeNanos, now) <==> TooOld(o, maxAgeNanos, now)
    ensures TooOld(o, maxAgeNanos, now) <==> VictimOf(o, AgeCutoff(maxAgeNanos, now)).byAge
  {
    assert LastUsed(o) >= 0;
    hide LastUsed;
    if maxAgeNanos > 0 { WholeSeconds(maxAgeNanos, now - LastUsed(o)); }
  }

  lemma WholeSeconds(nanos: nat, seconds: int)
    ensures seconds > nanos / NANOS <==> seconds * 1_000_000_000 > nanos
  {
  }

  /** What the two limits leave: nothing past the age limit, and nothing before the size cutoff. */
  lemma {:induction false} StaysIff(walk: seq<Obj>, o: Obj, maxAgeNanos: int, now: int, sizeCutoff: int)
    ensures o in Survivors(walk, Max(AgeCutoff(maxAgeNanos, now), sizeCutoff)) <==>
            o in walk && !TooOld(o, maxAgeNanos, now) && LastUsed(o) >= sizeCutoff
  {
    hide LastUsed, Survivors, AgeCutoff, TooOld;
    SurvivorIff(walk, Max(AgeCutoff(maxAgeNanos, now), sizeCutoff), o);
    OldIff(o, maxAgeNanos, now);
  }

  /** The victims counted by age are those past the age limit. */
  lemma {:induction false} AgedIsOld(walk: seq<Obj>, cutoff: int, maxAgeNanos: int, now: int)
    requires cutoff >= AgeCutoff(maxAgeNanos, now)
    ensures AgedIn(Batch(walk, cutoff, AgeCutoff(maxAgeNanos, now))) == CountOld(walk, maxAgeNanos, now)
  {
    hide LastUsed, AgeCutoff, TooOld, AgedIn;
    var age := AgeCutoff(maxAgeNanos, now);
    if walk == [] {
      NoBatch();
    } else {
      var n := |walk| - 1;
      AgedIsOld(walk[..n], cutoff, maxAgeNanos, now);
      OldIff(walk[n], maxAgeNanos, now);
      var front, v := Batch(walk[..n], cutoff, age), VictimOf(walk[n], age);
      assert (front + [v])[..|front|] == front && (front + [v])[..|front| + 1] == front + [v] && front + [] == front;
      BatchNext(front + [v], |front|);
    }
  }

  lemma {:induction false} NothingGoes(walk: seq<Obj>, cutoff: int, ageCutoff: int)
    requires cutoff <= 0
    ensures Survivors(walk, cutoff) == walk && Victims(walk, cutoff) == []
    ensures Batch(walk, cutoff, ageCutoff) == [] && Below(walk, cutoff) == 0
  {
    if walk != [] {
      NothingGoes(walk[..|walk| - 1], cutoff, ageCutoff);
      LastGoes(walk, cutoff);
      hide Survivors, Victims, Below;
    }
  }

  lemma {:induction false} BelowMono(walk: seq<Obj>, t: int, t': int)
    requires t <= t'
    ensures Below(walk, t) <= Below(walk, t')
  {
    hide LastUsed;
    if walk != [] { BelowMono(walk[..|walk| - 1], t, t'); }
  }

  /** A cutoff at or past the size cutoff gets the store within its limit. */
  lemma {:induction false} EnoughGoes(walk: seq<Obj>, maxBytes: int, sizeCutoff: int, cutoff: int)
    requires maxBytes > 0 && sizeCutoff <= cutoff
    requires Total(walk) > maxBytes ==> CutsEnough(walk, maxBytes, sizeCutoff)
    ensures Total(Survivors(walk, cutoff)) <= maxBytes
  {
    BytesConserved(walk, cutoff);
    BelowMono(walk, sizeCutoff, cutoff);
  }

  /** Without the victims the store holds the survivors. */
  lemma {:induction false} SurvivorsListed(walk: seq<Obj>, cutoff: int, ageCutoff: int, files: map<string, Obj>)
    requires Lists(walk, files)
    ensures Lists(Survivors(walk, cutoff), files - Keys(Batch(walk, cutoff, ageCutoff)))
  {
    hide LastUsed, Keys, Batch, Survivors;
    var live, gone := Survivors(walk, cutoff), Keys(Batch(walk, cutoff, ageCutoff));
    KeepOrder(walk, cutoff);
    forall i | 0 <= i < |live|
      ensures live[i].key in files - gone && files[live[i].key] == live[i]
    {
      SurvivorIff(walk, cutoff, live[i]);
      GoneIff(walk, cutoff, ageCutoff, files, live[i]);
    }
    forall k | k in files - gone
      ensures files[k] in live
    {
      var o := files[k];
      KeyIs(walk, files, k);
      SurvivorIff(walk, cutoff, o);
      GoneIff(walk, cutoff, ageCutoff, files, o);
    }
  }

  lemma KeyIs(walk: seq<Obj>, files: map<string, Obj>, k: string)
    requires Lists(walk, files) && k in files
    ensures files[k].key == k && files[k] in walk
  {
  }

  lemma {:induction false} GoneIff(walk: seq<Obj>, cutoff: int, ageCutoff: int, files: map<string, Obj>, o: Obj)
    requires Lists(walk, files) && o in walk
    ensures o.key in Keys(Batch(walk, cutoff, ageCutoff)) <==> LastUsed(o) < cutoff
  {
    hide LastUsed;
    var gone, v := Batch(walk, cutoff, ageCutoff), Victims(walk, cutoff);
    BatchIsVictims(walk, cutoff, ageCutoff);
    SurvivorIff(walk, cutoff, o);
    if o in v {
      var i :| 0 <= i < |v| && v[i] == o;
      assert gone[i] in gone;
    }
    if o.key in Keys(gone) {
      var i :| 0 <= i < |gone| && gone[i].key == o.key;
      SurvivorIff(walk, cutoff, v[i]);
    }
  }

  lemma {:induction false} KeepOrder(walk: seq<Obj>, cutoff: int)
    requires forall i, j | 0 <= i < j < |walk| :: walk[i].key != walk[j].key
    ensures var v := Survivors(walk, cutoff); forall i, j | 0 <= i < j < |v| :: v[i].key != v[j].key
  {
    hide LastUsed;
    if walk != [] {
      var n := |walk| - 1;
      KeepOrder(walk[..n], cutoff);
      var v := Survivors(walk[..n], cutoff);
      forall i | 0 <= i < |v|
        ensures v[i].key != walk[n].key
      {
        SurvivorIff(walk[..n], cutoff, v[i]);
        var k :| 0 <= k < n && walk[..n][k] == v[i];
      }
      var all := Survivors(walk, cutoff);
      assert all == v || all == v + [walk[n]];
    }
  }
}
