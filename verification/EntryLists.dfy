/**
 The index's list of keys by time: sorting it, and taking keys out of it.
 */
module EntryLists {
  import AddLog
  import opened NearbyScan

  /** Sorting, which the source leaves to its library. */
  function SortByTime(s: seq<Entry>): (r: seq<Entry>)
    ensures InOrder(r) && multiset(r) == multiset(s)
  {
    if s == [] then [] else
    var r := SortByTime(s[1..]);
    assert s == [s[0]] + s[1..];
    InsertInOrder(s[0], r);
    InsertByTime(s[0], r)
  }

  function InsertByTime(e: Entry, s: seq<Entry>): (r: seq<Entry>)
    ensures multiset(r) == multiset(s) + multiset{e}
  {
    if s == [] || e.mtime <= s[0].mtime then [e] + s
    else
      assert s == [s[0]] + s[1..];
      [s[0]] + InsertByTime(e, s[1..])
  }

  lemma {:induction false} InsertInOrder(e: Entry, s: seq<Entry>)
    requires InOrder(s)
    ensures InOrder(InsertByTime(e, s))
  {
    if s != [] && e.mtime > s[0].mtime {
      var rest := InsertByTime(e, s[1..]);
      InsertInOrder(e, s[1..]);
      forall j | 0 <= j < |rest|
        ensures s[0].mtime <= rest[j].mtime
      {
        assert rest[j] in multiset(rest);
        if rest[j] != e {
          assert rest[j] in multiset(s[1..]);
          var k :| 1 <= k < |s| && s[k] == rest[j];
        }
      }
    }
  }

  /** now is was without one entry of key, one that is no later than its others; without one, now is was. */
  ghost predicate LosesEarliest(was: multiset<Entry>, key: AddLog.CompactKey, now: multiset<Entry>) {
    (now == was && NoneOf(was, key)) || exists e: Entry :: Lost(was, key, now, e)
  }

  ghost predicate NoneOf(was: multiset<Entry>, key: AddLog.CompactKey) {
    forall e: Entry | e in was :: e.key != key
  }

  ghost predicate Lost(was: multiset<Entry>, key: AddLog.CompactKey, now: multiset<Entry>, e: Entry) {
    && e in was && e.key == key && now == was - multiset{e}
    && forall x: Entry | x in was && x.key == key :: e.mtime <= x.mtime
  }

  /** The first entry of a key goes; no other does. */
  method RemoveFirst(s: seq<Entry>, key: AddLog.CompactKey) returns (out: seq<Entry>)
    requires InOrder(s)
    ensures InOrder(out) && LosesEarliest(multiset(s), key, multiset(out))
  {
    for i := 0 to |s|
      invariant forall j | 0 <= j < i :: s[j].key != key
    {
      if s[i].key == key {
        out := s[..i] + s[i + 1..];
        FirstLost(s, key, i);
        return;
      }
    }
    out := s;
    NoneHas(s, key);
  }

  lemma NoneHas(s: seq<Entry>, key: AddLog.CompactKey)
    requires forall j | 0 <= j < |s| :: s[j].key != key
    ensures NoneOf(multiset(s), key)
  {
    forall e: Entry | e in multiset(s)
      ensures e.key != key
    {
      assert e in s;
    }
  }

  lemma {:induction false} FirstLost(s: seq<Entry>, key: AddLog.CompactKey, i: nat)
    requires i < |s| && s[i].key == key && InOrder(s) && forall j | 0 <= j < i :: s[j].key != key
    ensures Lost(multiset(s), key, multiset(s[..i] + s[i + 1..]), s[i])
  {
    assert s == s[..i] + [s[i]] + s[i + 1..];
    forall x: Entry | x in multiset(s) && x.key == key
      ensures s[i].mtime <= x.mtime
    {
      assert x in s;
      var j :| 0 <= j < |s| && s[j] == x;
    }
  }

  /** Every entry of the keys goes, and the others keep their order. */
  method FilterEntries(s: seq<Entry>, victims: set<AddLog.CompactKey>) returns (out: seq<Entry>)
    requires InOrder(s)
    ensures InOrder(out) && Filtered(multiset(s), victims, multiset(out))
  {
    out := [];
    for i := 0 to |s|
      invariant InOrder(out) && Filtered(multiset(s[..i]), victims, multiset(out))
      invariant forall j | 0 <= j < |out| :: out[j] in s[..i]
    {
      assert s[..i + 1] == s[..i] + [s[i]];
      if s[i].key !in victims {
        forall j | 0 <= j < |out|
          ensures out[j].mtime <= s[i].mtime
        {
          var k :| 0 <= k < i && s[..i][k] == out[j];
        }
        out := out + [s[i]];
      }
    }
    assert s[..|s|] == s;
  }

  /** now is was without every entry of the keys. */
  ghost predicate Filtered(was: multiset<Entry>, victims: set<AddLog.CompactKey>, now: multiset<Entry>) {
    forall e: Entry :: now[e] == if e.key in victims then 0 else was[e]
  }
}
