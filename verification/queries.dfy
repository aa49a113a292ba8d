/** The list queries of the series service: filters, the rating order, top
    N, title search, the average rating and the longest-running series.
    A `double` rating threshold is a `real`; a stored rating of `r` tenths is
    the value `r / 10`. */
module SeriesQueries {
  import opened Wrappers
  import opened Text
  import opened Seqs
  import opened Sorting
  import opened Model
  import Numbers

  /** The failures of the queries: `limit` with a negative size, a null
      search query, and a null title met while searching. */
  datatype QueryError = NegativeLimit | NullQuery | NullTitle(index: nat)

  function RatingValue(s: Series): real {
    s.rating as real / 10.0
  }

  predicate RatedAtLeast(s: Series, minRating: real) {
    RatingValue(s) >= minRating
  }

  /** The filter's test as a value. */
  function AtLeast(minRating: real): Series -> bool {
    (s: Series) => RatedAtLeast(s, minRating)
  }

  function HasFlag(finished: bool): Series -> bool {
    (s: Series) => s.finished == finished
  }

  /** `filterByRating`: exactly the records rated at least `minRating`, with
      their multiplicities, in input order. */
  function FilterByRating(list: seq<Series>, minRating: real): (r: seq<Series>)
    ensures IsSubsequence(r, list)
    ensures forall x :: multiset(r)[x] == if RatedAtLeast(x, minRating) then multiset(list)[x] else 0
  {
    FilterSpec(list, AtLeast(minRating));
    Filter(list, AtLeast(minRating))
  }

  /** `filterByFinished`: exactly the records whose flag is `finished`. */
  function FilterByFinished(list: seq<Series>, finished: bool): (r: seq<Series>)
    ensures IsSubsequence(r, list)
    ensures forall x :: multiset(r)[x] == if x.finished == finished then multiset(list)[x] else 0
  {
    FilterSpec(list, HasFlag(finished));
    Filter(list, HasFlag(finished))
  }

  /** The two flag filters split the list between them. */
  lemma FinishedPartition(list: seq<Series>)
    ensures |FilterByFinished(list, true)| + |FilterByFinished(list, false)| == |list|
    ensures multiset(FilterByFinished(list, true)) + multiset(FilterByFinished(list, false)) == multiset(list)
  {
    FilterLength(list, HasFlag(true), HasFlag(false));
    var a := FilterByFinished(list, true);
    var b := FilterByFinished(list, false);
    assert forall x :: (multiset(a) + multiset(b))[x] == multiset(list)[x];
  }

  /** The reversed rating comparator: `a` may precede `b` when it is rated at
      least as high. */
  predicate RatingDescLeq(a: Series, b: Series) {
    a.rating >= b.rating
  }

  lemma RatingDescIsTotalPreorder()
    ensures TotalPreorder(RatingDescLeq)
  {
  }

  /** `sortByRatingDesc`: a permutation, highest rating first, records of
      equal rating in input order. */
  function SortByRatingDesc(list: seq<Series>): (r: seq<Series>)
    ensures multiset(r) == multiset(list) && |r| == |list|
    ensures forall i, j | 0 <= i < j < |r| :: r[i].rating >= r[j].rating
    ensures forall z :: TiedWith(r, z, RatingDescLeq) == TiedWith(list, z, RatingDescLeq)
  {
    RatingDescIsTotalPreorder();
    SortSpec(list, RatingDescLeq);
    Sort(list, RatingDescLeq)
  }

  /** `topNByRating`: the first `n` records of the rating order; a negative
      `n` is refused by `limit`. */
  function TopNByRating(list: seq<Series>, n: int): (r: Result<seq<Series>, QueryError>)
    ensures r.Failure? <==> n < 0
    ensures r.Failure? ==> r.error == NegativeLimit
    ensures r.Success? ==> |r.value| == Numbers.Min(n, |list|)
    ensures r.Success? ==> multiset(r.value) <= multiset(list)
    ensures r.Success? ==> forall i, j | 0 <= i < j < |r.value| :: r.value[i].rating >= r.value[j].rating
    ensures r.Success? ==> forall z :: TiedWith(r.value, z, RatingDescLeq) <= TiedWith(list, z, RatingDescLeq)
  {
    if n < 0 then Failure(NegativeLimit)
    else
      var sorted := SortByRatingDesc(list);
      var k := Numbers.Min(n, |list|);
      assert sorted == sorted[..k] + sorted[k..];
      assert forall z :: TiedWith(sorted[..k], z, RatingDescLeq) <= TiedWith(list, z, RatingDescLeq) by {
        forall z
          ensures TiedWith(sorted[..k], z, RatingDescLeq) <= TiedWith(list, z, RatingDescLeq)
        {
          TiedWithPrefix(sorted, k, z, RatingDescLeq);
        }
      }
      Success(sorted[..k])
  }

  /** No record left out of the top N is rated above one that is in it. */
  lemma TopNAreBest(list: seq<Series>, n: nat, x: Series, y: Series)
    requires x in TopNByRating(list, n).value
    requires y in multiset(list) - multiset(TopNByRating(list, n).value)
    ensures x.rating >= y.rating
  {
    var sorted := SortByRatingDesc(list);
    var k := Numbers.Min(n, |list|);
    var top, rest := sorted[..k], sorted[k..];
    assert TopNByRating(list, n).value == top;
    assert sorted == top + rest;
    LeftOver(top, rest, multiset(list), y);
    PrefixRatedHigher(sorted, k, x, y);
  }

  lemma LeftOver(top: seq<Series>, rest: seq<Series>, all: multiset<Series>, y: Series)
    requires all == multiset(top + rest)
    requires y in all - multiset(top)
    ensures y in multiset(rest)
  {
    assert all == multiset(top) + multiset(rest);
  }

  lemma PrefixRatedHigher(sorted: seq<Series>, k: nat, x: Series, y: Series)
    requires k <= |sorted|
    requires forall i, j | 0 <= i < j < |sorted| :: sorted[i].rating >= sorted[j].rating
    requires x in sorted[..k] && y in multiset(sorted[k..])
    ensures x.rating >= y.rating
  {
    var i :| 0 <= i < k && sorted[..k][i] == x;
    var j :| 0 <= j < |sorted[k..]| && sorted[k..][j] == y;
    assert sorted[i] == x && sorted[k + j] == y;
  }

  /** The search test on one record: its lower-cased title contains the
      lower-cased query. */
  predicate TitleMatches(s: Series, query: string) {
    s.title.Some? && Contains(Lower(s.title.value), Lower(query))
  }

  /** The records before `i` all have a title and none matches. */
  predicate NoMatchBefore(list: seq<Series>, query: string, i: nat)
    requires i <= |list|
  {
    forall j | 0 <= j < i :: list[j].title.Some? && !TitleMatches(list[j], query)
  }

  function SearchFrom(list: seq<Series>, query: string, i: nat): (r: Result<Option<Series>, QueryError>)
    requires i <= |list| && NoMatchBefore(list, query, i)
    ensures r.Success? && r.value.None? ==> NoMatchBefore(list, query, |list|)
    ensures r.Success? && r.value.Some? ==>
              exists k | i <= k < |list| :: list[k] == r.value.value && NoMatchBefore(list, query, k)
                                            && TitleMatches(list[k], query)
    ensures r.Failure? ==>
              && r.error.NullTitle? && i <= r.error.index < |list|
              && list[r.error.index].title.None? && NoMatchBefore(list, query, r.error.index)
    decreases |list| - i
  {
    if i == |list| then Success(None)
    else if list[i].title.None? then Failure(NullTitle(i))
    else if TitleMatches(list[i], query) then Success(Some(list[i]))
    else SearchFrom(list, query, i + 1)
  }

  /** `findByTitleContains`: the first record whose title contains the query,
      ignoring case. The stream stops at the first match, so a null title
      fails the search only when it comes before every match. */
  function FindByTitleContains(list: seq<Series>, query: Option<string>): (r: Result<Option<Series>, QueryError>)
    ensures query.None? ==> r == Failure(NullQuery)
    ensures query.Some? ==> (r == Success(None) <==> NoMatchBefore(list, query.value, |list|))
    ensures query.Some? && r.Success? && r.value.Some? ==>
              exists k | 0 <= k < |list| :: list[k] == r.value.value && NoMatchBefore(list, query.value, k)
                                            && TitleMatches(list[k], query.value)
    ensures query.Some? && r.Failure? ==>
              && r.error.NullTitle? && r.error.index < |list|
              && list[r.error.index].title.None? && NoMatchBefore(list, query.value, r.error.index)
  {
    if query.None? then Failure(NullQuery)
    else
      var r := SearchFrom(list, query.value, 0);
      assert NoMatchBefore(list, query.value, |list|) ==> r == Success(None) by {
        if NoMatchBefore(list, query.value, |list|) && r != Success(None) {
          SearchNeverStops(list, query.value, 0);
        }
      }
      r
  }

  lemma {:induction false} SearchNeverStops(list: seq<Series>, query: string, i: nat)
    requires i <= |list| && NoMatchBefore(list, query, |list|)
    ensures SearchFrom(list, query, i) == Success(None)
    decreases |list| - i
  {
    if i < |list| {
      SearchNeverStops(list, query, i + 1);
    }
  }

  /** The search finds a record exactly when some record's title matches and
      every record before it has a title. */
  lemma FindIffMatch(list: seq<Series>, query: string, k: nat)
    requires k < |list| && TitleMatches(list[k], query)
    requires NoMatchBefore(list, query, k)
    ensures FindByTitleContains(list, Some(query)) == Success(Some(list[k]))
  {
    var r := FindByTitleContains(list, Some(query));
    assert !NoMatchBefore(list, query, |list|);
    if r.Success? && r.value.Some? {
      var k' :| 0 <= k' < |list| && list[k'] == r.value.value && NoMatchBefore(list, query, k')
                && TitleMatches(list[k'], query);
      assert k' == k;
    }
  }

  function RatingSum(list: seq<Series>): int {
    if list == [] then 0 else list[0].rating + RatingSum(list[1..])
  }

  /** `averageRating`: the mean rating, or 0 for an empty list. It is the
      exact mean; the `double` rounding of the sum is not modelled. */
  function AverageRating(list: seq<Series>): (avg: real)
    ensures list == [] ==> avg == 0.0
    ensures list != [] ==> avg * (|list| as real) * 10.0 == RatingSum(list) as real
  {
    if list == [] then 0.0 else RatingSum(list) as real / (10.0 * |list| as real)
  }

  lemma {:induction false} RatingSumBounds(list: seq<Series>, lo: int, hi: int)
    requires forall i | 0 <= i < |list| :: lo <= list[i].rating <= hi
    ensures |list| * lo <= RatingSum(list) <= |list| * hi
  {
    if list != [] {
      RatingSumBounds(list[1..], lo, hi);
    }
  }

  /** The mean lies between the lowest and the highest rating. */
  lemma AverageWithinRange(list: seq<Series>, lo: int, hi: int)
    requires list != []
    requires forall i | 0 <= i < |list| :: lo <= list[i].rating <= hi
    ensures lo as real / 10.0 <= AverageRating(list) <= hi as real / 10.0
  {
    RatingSumBounds(list, lo, hi);
    var n := |list|;
    var sum := RatingSum(list);
    assert AverageRating(list) == sum as real / (10.0 * n as real);
    ScaledMean(sum, n, lo, hi);
  }

  lemma ScaledMean(sum: int, n: int, lo: int, hi: int)
    requires n > 0 && n * lo <= sum <= n * hi
    ensures lo as real / 10.0 <= sum as real / (10.0 * n as real) <= hi as real / 10.0
  {
    var m := 10.0 * n as real;
    assert (n * lo) as real == n as real * lo as real;
    assert (n * hi) as real == n as real * hi as real;
    assert lo as real / 10.0 == (n as real * lo as real) / m;
    assert hi as real / 10.0 == (n as real * hi as real) / m;
  }

  /** The position `reduce` with `maxBy` ends on: the running best is kept
      unless a later record has strictly more seasons, so ties go to the
      earliest record. */
  function MaxSeasonsIndex(list: seq<Series>): (k: nat)
    requires list != []
    ensures k < |list|
    ensures forall j | 0 <= j < |list| :: list[j].seasons <= list[k].seasons
    ensures forall j | 0 <= j < k :: list[j].seasons < list[k].seasons
  {
    if |list| == 1 then 0
    else
      var k := MaxSeasonsIndex(list[..|list| - 1]);
      assert forall j | 0 <= j < |list| - 1 :: list[..|list| - 1][j] == list[j];
      if list[k].seasons >= list[|list| - 1].seasons then k else |list| - 1
  }

  /** `maxSeasons`: empty for an empty list, otherwise the first record with
      the most seasons. */
  function MaxSeasons(list: seq<Series>): (r: Option<Series>)
    ensures r.None? <==> list == []
    ensures r.Some? ==> exists k | 0 <= k < |list| :: list[k] == r.value
                          && (forall j | 0 <= j < |list| :: list[j].seasons <= r.value.seasons)
                          && (forall j | 0 <= j < k :: list[j].seasons < r.value.seasons)
  {
    if list == [] then None else Some(list[MaxSeasonsIndex(list)])
  }
}
