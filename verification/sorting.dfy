/** The stable sort behind `Stream.sorted(comparator)`: elements that the
    comparator ranks equal keep their encounter order. Modelled as insertion
    sort under a non-strict order `leq` (`leq(a, b)` is `compare(a, b) <= 0`). */
module Sorting {
  import opened Seqs

  /** `leq` is total and transitive, as a Java comparator must be. */
  ghost predicate TotalPreorder<T(!new)>(leq: (T, T) -> bool) {
    && (forall a, b :: leq(a, b) || leq(b, a))
    && (forall a, b, c :: leq(a, b) && leq(b, c) ==> leq(a, c))
  }

  /** Every earlier element is ranked no later than every later one. */
  predicate SortedBy<T>(s: seq<T>, leq: (T, T) -> bool) {
    forall i, j | 0 <= i < j < |s| :: leq(s[i], s[j])
  }

  /** `a` and `b` are ranked equal. */
  predicate Tied<T>(leq: (T, T) -> bool, a: T, b: T) {
    leq(a, b) && leq(b, a)
  }

  /** The elements of `s` ranked equal to `z`, in order. */
  function TiedWith<T>(s: seq<T>, z: T, leq: (T, T) -> bool): seq<T> {
    if s == [] then [] else (if Tied(leq, s[0], z) then [s[0]] else []) + TiedWith(s[1..], z, leq)
  }

  /** Places `x` in front of the first element it does not rank after. */
  function Insert<T>(x: T, s: seq<T>, leq: (T, T) -> bool): seq<T> {
    if s == [] || leq(x, s[0]) then [x] + s else [s[0]] + Insert(x, s[1..], leq)
  }

  function Sort<T>(s: seq<T>, leq: (T, T) -> bool): seq<T> {
    if s == [] then [] else Insert(s[0], Sort(s[1..], leq), leq)
  }

  lemma {:induction false} InsertPermutes<T>(x: T, s: seq<T>, leq: (T, T) -> bool)
    ensures multiset(Insert(x, s, leq)) == multiset(s) + multiset{x}
  {
    if s != [] && !leq(x, s[0]) {
      var t := Insert(x, s[1..], leq);
      InsertPermutes(x, s[1..], leq);
      assert Insert(x, s, leq) == [s[0]] + t;
      assert s == [s[0]] + s[1..];
    }
  }

  lemma {:induction false} InsertSorted<T(!new)>(x: T, s: seq<T>, leq: (T, T) -> bool)
    requires TotalPreorder(leq)
    requires SortedBy(s, leq)
    ensures SortedBy(Insert(x, s, leq), leq)
  {
    if s != [] {
      if leq(x, s[0]) {
        var r := Insert(x, s, leq);
        assert r == [x] + s;
        forall i, j | 0 <= i < j < |r|
          ensures leq(r[i], r[j])
        {
          if i == 0 {
            assert r[j] == s[j - 1];
            if j > 1 {
              assert leq(s[0], s[j - 1]);
            }
          } else {
            assert r[i] == s[i - 1] && r[j] == s[j - 1];
          }
        }
      } else {
        var t := Insert(x, s[1..], leq);
        InsertSorted(x, s[1..], leq);
        InsertPermutes(x, s[1..], leq);
        var r := [s[0]] + t;
        assert Insert(x, s, leq) == r;
        forall i, j | 0 <= i < j < |r|
          ensures leq(r[i], r[j])
        {
          if i == 0 {
            assert r[j] == t[j - 1];
            assert t[j - 1] in multiset(t);
            assert t[j - 1] in multiset(s[1..]) || t[j - 1] == x;
            if t[j - 1] != x {
              var k :| 0 <= k < |s[1..]| && s[1..][k] == t[j - 1];
              assert s[k + 1] == t[j - 1];
            }
          } else {
            assert r[i] == t[i - 1] && r[j] == t[j - 1];
          }
        }
      }
    }
  }

  lemma {:induction false} InsertStable<T(!new)>(x: T, s: seq<T>, z: T, leq: (T, T) -> bool)
    requires TotalPreorder(leq)
    ensures TiedWith(Insert(x, s, leq), z, leq)
         == (if Tied(leq, x, z) then [x] else []) + TiedWith(s, z, leq)
  {
    if s == [] || leq(x, s[0]) {
      var r := [x] + s;
      assert r[1..] == s;
    } else {
      InsertStable(x, s[1..], z, leq);
      var r := [s[0]] + Insert(x, s[1..], leq);
      assert r[1..] == Insert(x, s[1..], leq);
      assert s == [s[0]] + s[1..];
      assert !(Tied(leq, x, z) && Tied(leq, s[0], z));
    }
  }

  /** Sorting permutes its input, orders it, and keeps every group of tied
      elements in input order. */
  lemma SortSpec<T(!new)>(s: seq<T>, leq: (T, T) -> bool)
    requires TotalPreorder(leq)
    ensures multiset(Sort(s, leq)) == multiset(s)
    ensures |Sort(s, leq)| == |s|
    ensures SortedBy(Sort(s, leq), leq)
    ensures forall z :: TiedWith(Sort(s, leq), z, leq) == TiedWith(s, z, leq)
  {
    SortPermutes(s, leq);
    SortSorted(s, leq);
    forall z
      ensures TiedWith(Sort(s, leq), z, leq) == TiedWith(s, z, leq)
    {
      SortStable(s, z, leq);
    }
  }

  /** The elements tied with `z` in a prefix are a prefix of those in the
      whole sequence: cutting a sequence short keeps the relative order of
      equals. */
  lemma {:induction false} TiedWithPrefix<T>(s: seq<T>, k: nat, z: T, leq: (T, T) -> bool)
    requires k <= |s|
    ensures TiedWith(s[..k], z, leq) <= TiedWith(s, z, leq)
  {
    if k > 0 {
      TiedWithPrefix(s[1..], k - 1, z, leq);
      assert s[..k][1..] == s[1..][..k - 1];
      assert s[..k][0] == s[0];
    }
  }

  lemma {:induction false} SortPermutes<T>(s: seq<T>, leq: (T, T) -> bool)
    ensures multiset(Sort(s, leq)) == multiset(s)
    ensures |Sort(s, leq)| == |s|
  {
    if s != [] {
      SortPermutes(s[1..], leq);
      InsertPermutes(s[0], Sort(s[1..], leq), leq);
      assert s == [s[0]] + s[1..];
    }
  }

  lemma {:induction false} SortSorted<T(!new)>(s: seq<T>, leq: (T, T) -> bool)
    requires TotalPreorder(leq)
    ensures SortedBy(Sort(s, leq), leq)
  {
    if s != [] {
      SortSorted(s[1..], leq);
      InsertSorted(s[0], Sort(s[1..], leq), leq);
    }
  }

  lemma {:induction false} SortStable<T(!new)>(s: seq<T>, z: T, leq: (T, T) -> bool)
    requires TotalPreorder(leq)
    ensures TiedWith(Sort(s, leq), z, leq) == TiedWith(s, z, leq)
  {
    if s != [] {
      SortStable(s[1..], z, leq);
      InsertStable(s[0], Sort(s[1..], leq), z, leq);
    }
  }

  /** Sorting commutes with a mapping when the two orders agree across it. */
  lemma {:induction false} MapSort<T, U>(s: seq<T>, f: T -> U, leqT: (T, T) -> bool, leqU: (U, U) -> bool)
    requires forall a, b :: leqT(a, b) == leqU(f(a), f(b))
    ensures Map(Sort(s, leqT), f) == Sort(Map(s, f), leqU)
  {
    if s != [] {
      MapSort(s[1..], f, leqT, leqU);
      assert Map(s, f)[1..] == Map(s[1..], f);
      MapInsert(s[0], Sort(s[1..], leqT), f, leqT, leqU);
    }
  }

  lemma {:induction false} MapInsert<T, U>(x: T, s: seq<T>, f: T -> U, leqT: (T, T) -> bool, leqU: (U, U) -> bool)
    requires forall a, b :: leqT(a, b) == leqU(f(a), f(b))
    ensures Map(Insert(x, s, leqT), f) == Insert(f(x), Map(s, f), leqU)
  {
    if s != [] && !leqT(x, s[0]) {
      MapInsert(x, s[1..], f, leqT, leqU);
      assert Map(s, f)[1..] == Map(s[1..], f);
    }
  }
}
