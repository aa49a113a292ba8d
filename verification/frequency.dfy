/** The frequency table shared by both statistics services: count every key
    (`counts.put(key, counts.getOrDefault(key, 0) + 1)`), then order the
    entries by count descending and key ascending ignoring case. */
module Frequency {
  import opened Text
  import Sorting

  /** One `(key, count)` row of the result map. */
  datatype Entry = Entry(key: string, count: nat)

  function Sum(t: seq<Entry>): nat {
    if t == [] then 0 else t[0].count + Sum(t[1..])
  }

  predicate UniqueKeys(t: seq<Entry>) {
    forall i, j | 0 <= i < j < |t| :: t[i].key != t[j].key
  }

  function KeySet(t: seq<Entry>): set<string> {
    set e | e in t :: e.key
  }

  /** `counts.getOrDefault(k, 0)`. */
  function GetOrZero(t: seq<Entry>, k: string): nat {
    if t == [] then 0 else if t[0].key == k then t[0].count else GetOrZero(t[1..], k)
  }

  /** `counts.put(k, counts.getOrDefault(k, 0) + 1)`; a new key goes last. */
  function Bump(t: seq<Entry>, k: string): seq<Entry> {
    if t == [] then [Entry(k, 1)]
    else if t[0].key == k then [Entry(k, t[0].count + 1)] + t[1..]
    else [t[0]] + Bump(t[1..], k)
  }

  lemma KeySetCons(e: Entry, t: seq<Entry>)
    ensures KeySet([e] + t) == {e.key} + KeySet(t)
  {
    assert forall x | x in [e] + t :: x == e || x in t;
  }

  lemma {:induction false} KeySetTail(t: seq<Entry>)
    requires UniqueKeys(t) && t != []
    ensures UniqueKeys(t[1..])
    ensures KeySet(t) == {t[0].key} + KeySet(t[1..])
    ensures t[0].key !in KeySet(t[1..])
  {
    assert t == [t[0]] + t[1..];
    KeySetCons(t[0], t[1..]);
    forall e | e in t[1..] ensures e.key != t[0].key {
      var j :| 0 <= j < |t[1..]| && t[1..][j] == e;
      assert t[j + 1] == e;
    }
  }

  /** A new first entry keeps keys unique when its key is not already there. */
  lemma UniqueCons(e: Entry, t: seq<Entry>)
    requires UniqueKeys(t) && e.key !in KeySet(t)
    ensures UniqueKeys([e] + t)
  {
    var r := [e] + t;
    forall i, j | 0 <= i < j < |r|
      ensures r[i].key != r[j].key
    {
      assert r[j] == t[j - 1];
      if i == 0 {
        assert t[j - 1] in t;
      } else {
        assert r[i] == t[i - 1];
      }
    }
  }

  /** Rearranging entries keeps the key set. */
  lemma KeySetOfPermutation(a: seq<Entry>, b: seq<Entry>)
    requires multiset(a) == multiset(b)
    ensures KeySet(a) == KeySet(b)
  {
    forall e | e in a ensures e in b {
      assert e in multiset(a);
    }
    forall e | e in b ensures e in a {
      assert e in multiset(b);
    }
  }

  lemma {:induction false} BumpSum(t: seq<Entry>, k: string)
    ensures Sum(Bump(t, k)) == Sum(t) + 1
  {
    if t != [] && t[0].key != k {
      BumpSum(t[1..], k);
    }
  }

  lemma {:induction false} BumpKeys(t: seq<Entry>, k: string)
    ensures KeySet(Bump(t, k)) == KeySet(t) + {k}
    ensures forall e | e in Bump(t, k) && e.key != k :: e in t
  {
    if t != [] {
      assert t == [t[0]] + t[1..];
      KeySetCons(t[0], t[1..]);
      if t[0].key == k {
        KeySetCons(Entry(k, t[0].count + 1), t[1..]);
      } else {
        BumpKeys(t[1..], k);
        KeySetCons(t[0], Bump(t[1..], k));
      }
    }
  }

  lemma {:induction false} BumpUnique(t: seq<Entry>, k: string)
    requires UniqueKeys(t)
    ensures UniqueKeys(Bump(t, k))
  {
    if t != [] {
      KeySetTail(t);
      if t[0].key == k {
        UniqueCons(Entry(k, t[0].count + 1), t[1..]);
      } else {
        BumpUnique(t[1..], k);
        BumpKeys(t[1..], k);
        UniqueCons(t[0], Bump(t[1..], k));
      }
    }
  }

  lemma {:induction false} BumpCount(t: seq<Entry>, k: string)
    requires UniqueKeys(t)
    ensures forall e | e in Bump(t, k) && e.key == k :: e.count == GetOrZero(t, k) + 1
  {
    if t != [] {
      KeySetTail(t);
      if t[0].key == k {
        assert Bump(t, k) == [Entry(k, t[0].count + 1)] + t[1..];
      } else {
        BumpCount(t[1..], k);
      }
    }
  }

  /** Bumping adds one to the total, keeps keys unique, adds `k` to the key
      set, leaves every other entry alone and sets `k`'s count to its previous
      count plus one. */
  lemma BumpSpec(t: seq<Entry>, k: string)
    requires UniqueKeys(t)
    ensures Sum(Bump(t, k)) == Sum(t) + 1
    ensures KeySet(Bump(t, k)) == KeySet(t) + {k}
    ensures UniqueKeys(Bump(t, k))
    ensures forall e | e in Bump(t, k) && e.key != k :: e in t
    ensures forall e | e in Bump(t, k) && e.key == k :: e.count == GetOrZero(t, k) + 1
  {
    BumpSum(t, k);
    BumpKeys(t, k);
    BumpUnique(t, k);
    BumpCount(t, k);
  }

  lemma {:induction false} GetOrZeroMember(t: seq<Entry>, e: Entry)
    requires UniqueKeys(t) && e in t
    ensures GetOrZero(t, e.key) == e.count
  {
    if t[0] != e {
      assert e in t[1..];
      GetOrZeroMember(t[1..], e);
    }
  }

  lemma {:induction false} GetOrZeroAbsent(t: seq<Entry>, k: string)
    requires k !in KeySet(t)
    ensures GetOrZero(t, k) == 0
  {
    if t != [] {
      assert t[0] in t;
      assert KeySet(t[1..]) <= KeySet(t);
      GetOrZeroAbsent(t[1..], k);
    }
  }

  /** The counting loop: one entry per distinct key, in first-occurrence order. */
  function Tally(keys: seq<string>): (t: seq<Entry>)
    ensures UniqueKeys(t)
    ensures KeySet(t) == set k | k in keys
    ensures forall e | e in t :: e.count == multiset(keys)[e.key]
    ensures Sum(t) == |keys|
    decreases |keys|
  {
    if keys == [] then []
    else
      var init := keys[..|keys| - 1];
      var k := keys[|keys| - 1];
      var prev := Tally(init);
      assert keys == init + [k];
      BumpSpec(prev, k);
      TallyStep(init, k, prev);
      Bump(prev, k)
  }

  lemma TallyStep(init: seq<string>, k: string, prev: seq<Entry>)
    requires UniqueKeys(prev)
    requires KeySet(prev) == set x | x in init
    requires forall e | e in prev :: e.count == multiset(init)[e.key]
    ensures KeySet(Bump(prev, k)) == set x | x in init + [k]
    ensures forall e | e in Bump(prev, k) :: e.count == multiset(init + [k])[e.key]
  {
    var t := Bump(prev, k);
    BumpSpec(prev, k);
    assert multiset(init + [k]) == multiset(init) + multiset{k};
    forall e | e in t
      ensures e.count == multiset(init + [k])[e.key]
    {
      if e.key == k {
        if k in KeySet(prev) {
          var f :| f in prev && f.key == k;
          GetOrZeroMember(prev, f);
        } else {
          GetOrZeroAbsent(prev, k);
        }
      }
    }
  }

  /** The comparator: count descending, then `compareToIgnoreCase` ascending. */
  predicate EntryLeq(a: Entry, b: Entry) {
    a.count > b.count || (a.count == b.count && IgnoreCaseLeq(a.key, b.key))
  }

  lemma EntryLeqIsTotalPreorder()
    ensures Sorting.TotalPreorder(EntryLeq)
  {
    forall a: Entry, b: Entry
      ensures EntryLeq(a, b) || EntryLeq(b, a)
    {
      IgnoreCaseLeqTotal(a.key, b.key);
    }
    forall a: Entry, b: Entry, c: Entry | EntryLeq(a, b) && EntryLeq(b, c)
      ensures EntryLeq(a, c)
    {
      if a.count == b.count == c.count {
        IgnoreCaseLeqTransitive(a.key, b.key, c.key);
      }
    }
  }

  lemma {:induction false} InsertKeepsSum(x: Entry, s: seq<Entry>)
    ensures Sum(Sorting.Insert(x, s, EntryLeq)) == x.count + Sum(s)
  {
    if s != [] && !EntryLeq(x, s[0]) {
      InsertKeepsSum(x, s[1..]);
    }
  }

  lemma {:induction false} InsertKeepsUnique(x: Entry, s: seq<Entry>)
    requires UniqueKeys(s) && x.key !in KeySet(s)
    ensures UniqueKeys(Sorting.Insert(x, s, EntryLeq))
  {
    if s != [] {
      KeySetTail(s);
      if EntryLeq(x, s[0]) {
        UniqueCons(x, s);
      } else {
        InsertKeepsUnique(x, s[1..]);
        var t := Sorting.Insert(x, s[1..], EntryLeq);
        Sorting.InsertPermutes(x, s[1..], EntryLeq);
        KeySetOfPermutation(t, s[1..] + [x]);
        KeySetAppendOne(s[1..], x);
        UniqueCons(s[0], t);
      }
    }
  }

  lemma KeySetAppendOne(t: seq<Entry>, x: Entry)
    ensures KeySet(t + [x]) == KeySet(t) + {x.key}
  {
    assert forall e | e in t + [x] :: e in t || e == x;
  }

  lemma {:induction false} SortKeepsSumAndUnique(s: seq<Entry>)
    requires UniqueKeys(s)
    ensures Sum(Sorting.Sort(s, EntryLeq)) == Sum(s)
    ensures UniqueKeys(Sorting.Sort(s, EntryLeq))
  {
    if s != [] {
      KeySetTail(s);
      var rest := Sorting.Sort(s[1..], EntryLeq);
      SortKeepsSumAndUnique(s[1..]);
      EntryLeqIsTotalPreorder();
      Sorting.SortSpec(s[1..], EntryLeq);
      InsertKeepsSum(s[0], rest);
      KeySetOfPermutation(rest, s[1..]);
      InsertKeepsUnique(s[0], rest);
    }
  }

  /** `t` is the frequency table of `keys`: one entry per distinct key holding
      its number of occurrences, ordered by count descending and then by key
      ascending ignoring case (keys equal up to case may come in either order). */
  predicate IsFrequencyTable(t: seq<Entry>, keys: seq<string>) {
    && UniqueKeys(t)
    && KeySet(t) == (set k | k in keys)
    && (forall e | e in t :: e.count == multiset(keys)[e.key])
    && (forall i, j | 0 <= i < j < |t| ::
          t[i].count >= t[j].count
          && (t[i].count == t[j].count ==> IgnoreCaseLeq(t[i].key, t[j].key)))
  }

  /** What `SortedBy(t, EntryLeq)` says entry by entry. */
  lemma SortedEntries(t: seq<Entry>)
    requires Sorting.SortedBy(t, EntryLeq)
    ensures forall i, j | 0 <= i < j < |t| ::
              t[i].count >= t[j].count
              && (t[i].count == t[j].count ==> IgnoreCaseLeq(t[i].key, t[j].key))
  {
    forall i, j | 0 <= i < j < |t|
      ensures t[i].count >= t[j].count
      ensures t[i].count == t[j].count ==> IgnoreCaseLeq(t[i].key, t[j].key)
    {
      assert EntryLeq(t[i], t[j]);
    }
  }

  /** The result map of `countByAttribute`, built from the extracted keys. */
  function Table(keys: seq<string>): (t: seq<Entry>)
    ensures UniqueKeys(t)
    ensures KeySet(t) == set k | k in keys
    ensures forall e | e in t :: e.count == multiset(keys)[e.key] && e.count >= 1
    ensures Sum(t) == |keys|
    ensures Sorting.SortedBy(t, EntryLeq)
    ensures IsFrequencyTable(t, keys)
  {
    TableSpec(keys);
    Sorting.Sort(Tally(keys), EntryLeq)
  }

  lemma TableSpec(keys: seq<string>)
    ensures var t := Sorting.Sort(Tally(keys), EntryLeq);
            && UniqueKeys(t)
            && KeySet(t) == (set k | k in keys)
            && (forall e | e in t :: e.count == multiset(keys)[e.key] && e.count >= 1)
            && Sum(t) == |keys|
            && Sorting.SortedBy(t, EntryLeq)
            && IsFrequencyTable(t, keys)
  {
    var tally := Tally(keys);
    var t := Sorting.Sort(tally, EntryLeq);
    EntryLeqIsTotalPreorder();
    Sorting.SortSpec(tally, EntryLeq);
    SortKeepsSumAndUnique(tally);
    SortedEntries(t);
    KeySetOfPermutation(t, tally);
    PermutedCounts(t, tally, keys);
  }

  /** Counts carry over to any reordering of a table, and every key present
      occurs at least once. */
  lemma PermutedCounts(t: seq<Entry>, tally: seq<Entry>, keys: seq<string>)
    requires multiset(t) == multiset(tally)
    requires KeySet(tally) == set k | k in keys
    requires forall e | e in tally :: e.count == multiset(keys)[e.key]
    ensures forall e | e in t :: e.count == multiset(keys)[e.key] && e.count >= 1
  {
    forall e | e in t
      ensures e.count == multiset(keys)[e.key] && e.count >= 1
    {
      assert e in multiset(tally);
      assert e.key in KeySet(tally);
    }
  }
}
