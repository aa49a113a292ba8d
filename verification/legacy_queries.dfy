/** The older service's list queries over the top-level record type. Its code
    is the core service's, line for line; the lemmas at the end show that
    each query answers what the core query answers on the same records seen
    as core series. */
module LegacyQueries {
  import Numbers
  import opened Wrappers
  import opened Text
  import opened Seqs
  import opened Sorting
  import opened LegacyModel
  import Core = SeriesQueries

  function AtLeast(minRating: real): LegacySeries -> bool {
    (s: LegacySeries) => s.rating as real / 10.0 >= minRating
  }

  function HasFlag(finished: bool): LegacySeries -> bool {
    (s: LegacySeries) => s.finished == finished
  }

  /** `filterByRating`. */
  function FilterByRating(list: seq<LegacySeries>, minRating: real): (r: seq<LegacySeries>)
    ensures IsSubsequence(r, list)
  {
    FilterSpec(list, AtLeast(minRating));
    Filter(list, AtLeast(minRating))
  }

  /** `filterByFinished`. */
  function FilterByFinished(list: seq<LegacySeries>, finished: bool): (r: seq<LegacySeries>)
    ensures IsSubsequence(r, list)
  {
    FilterSpec(list, HasFlag(finished));
    Filter(list, HasFlag(finished))
  }

  predicate RatingDescLeq(a: LegacySeries, b: LegacySeries) {
    a.rating >= b.rating
  }

  /** `sortByRatingDesc`. */
  function SortByRatingDesc(list: seq<LegacySeries>): (r: seq<LegacySeries>)
    ensures multiset(r) == multiset(list) && |r| == |list|
  {
    assert TotalPreorder(RatingDescLeq);
    SortSpec(list, RatingDescLeq);
    Sort(list, RatingDescLeq)
  }

  /** `topNByRating`. */
  function TopNByRating(list: seq<LegacySeries>, n: int): (r: Result<seq<LegacySeries>, Core.QueryError>)
    ensures r.Failure? <==> n < 0
  {
    if n < 0 then Failure(Core.NegativeLimit)
    else Success(SortByRatingDesc(list)[..Numbers.Min(n, |list|)])
  }

  predicate TitleMatches(s: LegacySeries, query: string) {
    s.title.Some? && Contains(Lower(s.title.value), Lower(query))
  }

  function SearchFrom(list: seq<LegacySeries>, query: string, i: nat): Result<Option<LegacySeries>, Core.QueryError>
    requires i <= |list|
    decreases |list| - i
  {
    if i == |list| then Success(None)
    else if list[i].title.None? then Failure(Core.NullTitle(i))
    else if TitleMatches(list[i], query) then Success(Some(list[i]))
    else SearchFrom(list, query, i + 1)
  }

  /** `findByTitleContains`. */
  function FindByTitleContains(list: seq<LegacySeries>, query: Option<string>)
    : (r: Result<Option<LegacySeries>, Core.QueryError>)
    ensures query.None? ==> r == Failure(Core.NullQuery)
  {
    if query.None? then Failure(Core.NullQuery) else SearchFrom(list, query.value, 0)
  }

  function RatingSum(list: seq<LegacySeries>): int {
    if list == [] then 0 else list[0].rating + RatingSum(list[1..])
  }

  /** `averageRating`. */
  function AverageRating(list: seq<LegacySeries>): (avg: real)
    ensures list == [] ==> avg == 0.0
  {
    if list == [] then 0.0 else RatingSum(list) as real / (10.0 * |list| as real)
  }

  function MaxSeasonsIndex(list: seq<LegacySeries>): (k: nat)
    requires list != []
    ensures k < |list|
  {
    if |list| == 1 then 0
    else
      var k := MaxSeasonsIndex(list[..|list| - 1]);
      if list[k].seasons >= list[|list| - 1].seasons then k else |list| - 1
  }

  /** `maxSeasons`. */
  function MaxSeasons(list: seq<LegacySeries>): (r: Option<LegacySeries>)
    ensures r.None? <==> list == []
  {
    if list == [] then None else Some(list[MaxSeasonsIndex(list)])
  }

  // ------------------------------------------------ agreement with the core

  function WidenOpt(r: Option<LegacySeries>): Option<Model.Series> {
    if r.None? then None else Some(Widen(r.value))
  }

  lemma {:induction false} WidenAppend(a: seq<LegacySeries>, b: seq<LegacySeries>)
    ensures Map(a + b, Widen) == Map(a, Widen) + Map(b, Widen)
  {
    MapAppend(a, b, Widen);
  }

  /** The filters and the sort keep exactly the records the core keeps, in
      the same order. */
  lemma FiltersAndSortAgree(list: seq<LegacySeries>, minRating: real, finished: bool)
    ensures Map(FilterByRating(list, minRating), Widen) == Core.FilterByRating(Map(list, Widen), minRating)
    ensures Map(FilterByFinished(list, finished), Widen) == Core.FilterByFinished(Map(list, Widen), finished)
    ensures Map(SortByRatingDesc(list), Widen) == Core.SortByRatingDesc(Map(list, Widen))
  {
    MapFilter(list, Widen, Core.AtLeast(minRating), AtLeast(minRating));
    MapFilter(list, Widen, Core.HasFlag(finished), HasFlag(finished));
    MapSort(list, Widen, RatingDescLeq, Core.RatingDescLeq);
  }

  /** Top N agrees with the core, including the refusal of a negative N. */
  lemma TopNAgrees(list: seq<LegacySeries>, n: int)
    ensures TopNByRating(list, n).Failure? <==> Core.TopNByRating(Map(list, Widen), n).Failure?
    ensures TopNByRating(list, n).Success? ==>
              Map(TopNByRating(list, n).value, Widen) == Core.TopNByRating(Map(list, Widen), n).value
  {
    if n >= 0 {
      var sorted := SortByRatingDesc(list);
      MapSort(list, Widen, RatingDescLeq, Core.RatingDescLeq);
      assert Map(sorted, Widen) == Core.SortByRatingDesc(Map(list, Widen));
      MapPrefix(sorted, Widen, Numbers.Min(n, |list|));
    }
  }

  lemma {:induction false} SearchAgrees(list: seq<LegacySeries>, query: string, i: nat)
    requires i <= |list| && Core.NoMatchBefore(Map(list, Widen), query, i)
    ensures var core := Core.SearchFrom(Map(list, Widen), query, i);
            var legacy := SearchFrom(list, query, i);
            && (legacy.Failure? <==> core.Failure?)
            && (legacy.Failure? ==> legacy.error == core.error)
            && (legacy.Success? ==> WidenOpt(legacy.value) == core.value)
    decreases |list| - i
  {
    if i < |list| && list[i].title.Some? && !TitleMatches(list[i], query) {
      var core := Map(list, Widen);
      assert core[i] == Widen(list[i]);
      assert Core.NoMatchBefore(core, query, i + 1);
      SearchAgrees(list, query, i + 1);
    }
  }

  /** Title search agrees with the core: the same record, or the same
      failure. */
  lemma FindAgrees(list: seq<LegacySeries>, query: Option<string>)
    ensures var core := Core.FindByTitleContains(Map(list, Widen), query);
            var legacy := FindByTitleContains(list, query);
            && (legacy.Failure? <==> core.Failure?)
            && (legacy.Failure? ==> legacy.error == core.error)
            && (legacy.Success? ==> WidenOpt(legacy.value) == core.value)
  {
    if query.Some? {
      SearchAgrees(list, query.value, 0);
    }
  }

  /** The mean agrees with the core. */
  lemma AverageAgrees(list: seq<LegacySeries>)
    ensures AverageRating(list) == Core.AverageRating(Map(list, Widen))
  {
    RatingSumAgrees(list);
  }

  /** The longest-running series is the same record. */
  lemma MaxSeasonsAgrees(list: seq<LegacySeries>)
    ensures WidenOpt(MaxSeasons(list)) == Core.MaxSeasons(Map(list, Widen))
  {
    if list != [] {
      MaxIndexAgrees(list);
      var k := MaxSeasonsIndex(list);
      assert Map(list, Widen)[k] == Widen(list[k]);
    }
  }

  lemma {:induction false} RatingSumAgrees(list: seq<LegacySeries>)
    ensures RatingSum(list) == Core.RatingSum(Map(list, Widen))
  {
    if list != [] {
      RatingSumAgrees(list[1..]);
      assert Map(list, Widen)[1..] == Map(list[1..], Widen);
    }
  }

  lemma {:induction false} MaxIndexAgrees(list: seq<LegacySeries>)
    requires list != []
    ensures MaxSeasonsIndex(list) == Core.MaxSeasonsIndex(Map(list, Widen))
  {
    if |list| > 1 {
      var init := list[..|list| - 1];
      var core := Map(list, Widen);
      MaxIndexAgrees(init);
      MapPrefix(list, Widen, |list| - 1);
      var k := MaxSeasonsIndex(init);
      assert core[k].seasons == list[k].seasons;
      assert core[|list| - 1].seasons == list[|list| - 1].seasons;
    }
  }
}
