/** `Stream.filter`, order-preserving subsequences and element-wise mapping. */
module Seqs {

  /** The elements of `s` satisfying `p`, in their original order. */
  function Filter<T>(s: seq<T>, p: T -> bool): seq<T> {
    if s == [] then [] else (if p(s[0]) then [s[0]] else []) + Filter(s[1..], p)
  }

  /** `a` is obtained from `b` by deleting elements, keeping the order. */
  predicate IsSubsequence<T(==)>(a: seq<T>, b: seq<T>) {
    if a == [] then true
    else if b == [] then false
    else (a[0] == b[0] && IsSubsequence(a[1..], b[1..])) || IsSubsequence(a, b[1..])
  }

  function Map<T, U>(s: seq<T>, f: T -> U): (r: seq<U>)
    ensures |r| == |s|
    ensures forall i | 0 <= i < |s| :: r[i] == f(s[i])
  {
    if s == [] then [] else [f(s[0])] + Map(s[1..], f)
  }

  /** The lists `f` gives for the elements of `s`, concatenated in order. */
  function FlatMap<T, U>(s: seq<T>, f: T -> seq<U>): seq<U> {
    if s == [] then [] else f(s[0]) + FlatMap(s[1..], f)
  }

  lemma FlatMapConsStep<T, U>(a: seq<T>, b: seq<T>, f: T -> seq<U>)
    requires a != []
    ensures FlatMap(a + b, f) == f(a[0]) + FlatMap(a[1..] + b, f)
  {
    assert (a + b)[0] == a[0];
    assert (a + b)[1..] == a[1..] + b;
  }

  lemma {:induction false} FlatMapAppend<T, U>(a: seq<T>, b: seq<T>, f: T -> seq<U>)
    ensures FlatMap(a + b, f) == FlatMap(a, f) + FlatMap(b, f)
  {
    if a == [] {
      assert a + b == b;
    } else {
      var h, x, y := f(a[0]), FlatMap(a[1..], f), FlatMap(b, f);
      FlatMapAppend(a[1..], b, f);
      FlatMapConsStep(a, b, f);
      AppendAssoc(h, x, y);
    }
  }

  lemma AppendAssoc<T>(a: seq<T>, b: seq<T>, c: seq<T>)
    ensures a + (b + c) == a + b + c
  {
  }

  lemma FilterConsStep<T>(a: seq<T>, b: seq<T>, p: T -> bool)
    requires a != []
    ensures Filter(a + b, p) == (if p(a[0]) then [a[0]] else []) + Filter(a[1..] + b, p)
  {
    assert (a + b)[0] == a[0];
    assert (a + b)[1..] == a[1..] + b;
  }

  lemma {:induction false} FilterAppend<T>(a: seq<T>, b: seq<T>, p: T -> bool)
    ensures Filter(a + b, p) == Filter(a, p) + Filter(b, p)
  {
    if a == [] {
      assert a + b == b;
    } else {
      var h, x, y := if p(a[0]) then [a[0]] else [], Filter(a[1..], p), Filter(b, p);
      FilterAppend(a[1..], b, p);
      FilterConsStep(a, b, p);
      AppendAssoc(h, x, y);
    }
  }

  /** The filter is exactly characterised: an ordered subsequence that keeps
      every element satisfying `p`, with its multiplicity, and nothing else. */
  lemma FilterSpec<T>(s: seq<T>, p: T -> bool)
    ensures IsSubsequence(Filter(s, p), s)
    ensures forall x | x in Filter(s, p) :: x in s && p(x)
    ensures forall x :: multiset(Filter(s, p))[x] == if p(x) then multiset(s)[x] else 0
  {
    FilterSubsequence(s, p);
    forall x
      ensures multiset(Filter(s, p))[x] == if p(x) then multiset(s)[x] else 0
    {
      FilterCount(s, p, x);
    }
  }

  lemma {:induction false} FilterSubsequence<T>(s: seq<T>, p: T -> bool)
    ensures IsSubsequence(Filter(s, p), s)
  {
    if s != [] {
      FilterSubsequence(s[1..], p);
      var f := Filter(s, p);
      if p(s[0]) {
        assert f == [s[0]] + Filter(s[1..], p);
        assert f[1..] == Filter(s[1..], p);
      } else {
        assert f == Filter(s[1..], p);
        SubsequenceSkip(f, s);
      }
    }
  }

  lemma {:induction false} FilterCount<T>(s: seq<T>, p: T -> bool, x: T)
    ensures multiset(Filter(s, p))[x] == if p(x) then multiset(s)[x] else 0
  {
    if s != [] {
      FilterCount(s[1..], p, x);
      assert s == [s[0]] + s[1..];
      var h := if p(s[0]) then [s[0]] else [];
      assert Filter(s, p) == h + Filter(s[1..], p);
      assert multiset(Filter(s, p)) == multiset(h) + multiset(Filter(s[1..], p));
    }
  }

  lemma SubsequenceSkip<T>(a: seq<T>, b: seq<T>)
    requires b != [] && IsSubsequence(a, b[1..])
    ensures IsSubsequence(a, b)
  {
  }

  /** Every element satisfies `p` exactly when filtering keeps everything. */
  lemma {:induction false} FilterAll<T>(s: seq<T>, p: T -> bool)
    requires forall i | 0 <= i < |s| :: p(s[i])
    ensures Filter(s, p) == s
  {
    if s != [] {
      FilterAll(s[1..], p);
    }
  }

  lemma {:induction false} FilterLength<T>(s: seq<T>, p: T -> bool, q: T -> bool)
    requires forall x :: q(x) == !p(x)
    ensures |Filter(s, p)| + |Filter(s, q)| == |s|
  {
    if s != [] {
      FilterLength(s[1..], p, q);
    }
  }

  /** Filtering commutes with a mapping that the two predicates agree across. */
  lemma {:induction false} MapFilter<T, U>(s: seq<T>, f: T -> U, p: U -> bool, q: T -> bool)
    requires forall x :: q(x) == p(f(x))
    ensures Map(Filter(s, q), f) == Filter(Map(s, f), p)
  {
    if s != [] {
      MapFilter(s[1..], f, p, q);
      assert Map(s, f) == [f(s[0])] + Map(s[1..], f);
      assert Map(s, f)[1..] == Map(s[1..], f);
      MapAppend((if q(s[0]) then [s[0]] else []), Filter(s[1..], q), f);
    }
  }

  lemma MapAppend<T, U>(a: seq<T>, b: seq<T>, f: T -> U)
    ensures Map(a + b, f) == Map(a, f) + Map(b, f)
  {
  }

  lemma MapPrefix<T, U>(s: seq<T>, f: T -> U, k: nat)
    requires k <= |s|
    ensures Map(s[..k], f) == Map(s, f)[..k]
  {
  }
}
