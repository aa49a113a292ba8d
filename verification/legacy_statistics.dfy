/** `countByAttribute` of the older top-level statistics service, over the
    older record type. Its steps are those of the core service; the lemma at
    the end shows the two give the same answer on the same records. */
module LegacyStatistics {
  import opened Wrappers
  import opened Text
  import opened Numbers
  import opened LegacyModel
  import Statistics
  import Frequency
  import Model

  /** `extractKeys` over the older record's fields. */
  function ExtractKeys(s: LegacySeries, a: Statistics.Attribute): (keys: seq<string>)
    ensures |keys| >= 1
    ensures a != Statistics.Genre ==> |keys| == 1
    ensures a == Statistics.Title ==> keys == [Statistics.Safe(s.title)]
    ensures a == Statistics.Genre ==> keys == Statistics.SplitGenres(s.genre)
    ensures a == Statistics.Seasons ==> ParseInt(keys[0]) == Some(s.seasons)
    ensures a == Statistics.Rating ==> ParseTenths(keys[0]) == Some(s.rating)
    ensures a == Statistics.Year ==> ParseInt(keys[0]) == Some(s.year)
    ensures a == Statistics.Finished ==> ParseBool(keys[0]) == Some(s.finished)
  {
    IntToStringRoundTrip(s.seasons);
    IntToStringRoundTrip(s.year);
    FormatTenthsRoundTrip(s.rating);
    NumbersArePlain(0, 0);
    match a
    case Title => [Statistics.Safe(s.title)]
    case Genre => Statistics.SplitGenres(s.genre)
    case Seasons => [IntToString(s.seasons)]
    case Rating => [FormatTenths(s.rating)]
    case Year => [IntToString(s.year)]
    case Finished => [BoolToString(s.finished)]
  }

  function Keys(list: seq<Option<LegacySeries>>, a: Statistics.Attribute): seq<string> {
    if list == [] then []
    else (if list[0].Some? then ExtractKeys(list[0].value, a) else []) + Keys(list[1..], a)
  }

  predicate HasRecord(list: seq<Option<LegacySeries>>) {
    exists i | 0 <= i < |list| :: list[i].Some?
  }

  /** `countByAttribute` of the older service. */
  function CountByAttribute(list: Option<seq<Option<LegacySeries>>>, attribute: Option<string>)
    : (r: Result<seq<Frequency.Entry>, Statistics.StatsError>)
    ensures list.None? ==> r == Success([])
    ensures list.Some? && (attribute.None? || IsBlank(attribute.value)) ==> r == Failure(Statistics.EmptyAttribute)
    ensures r.Failure? && r.error.UnsupportedAttribute? ==>
              && list.Some? && attribute.Some?
              && r.error.name == Statistics.Normalise(attribute.value)
              && Statistics.AttributeNamed(r.error.name).None?
              && HasRecord(list.value)
    ensures list.Some? && attribute.Some? && !IsBlank(attribute.value) ==>
              match Statistics.AttributeNamed(Statistics.Normalise(attribute.value))
              case Some(a) =>
                r.Success? && Frequency.IsFrequencyTable(r.value, Keys(list.value, a))
              case None =>
                r == (if HasRecord(list.value)
                      then Failure(Statistics.UnsupportedAttribute(Statistics.Normalise(attribute.value)))
                      else Success([]))
  {
    if list.None? then Success([])
    else if attribute.None? || IsBlank(attribute.value) then Failure(Statistics.EmptyAttribute)
    else
      var name := Statistics.Normalise(attribute.value);
      match Statistics.AttributeNamed(name)
      case None =>
        if HasRecord(list.value) then Failure(Statistics.UnsupportedAttribute(name)) else Success([])
      case Some(a) => Success(Frequency.Table(Keys(list.value, a)))
  }

  function WidenAll(list: seq<Option<LegacySeries>>): (w: seq<Option<Model.Series>>)
    ensures |w| == |list|
    ensures forall i | 0 <= i < |list| :: w[i] == if list[i].Some? then Some(Widen(list[i].value)) else None
  {
    if list == [] then [] else [if list[0].Some? then Some(Widen(list[0].value)) else None] + WidenAll(list[1..])
  }

  lemma {:induction false} KeysAgree(list: seq<Option<LegacySeries>>, a: Statistics.Attribute)
    ensures Keys(list, a) == Statistics.Keys(WidenAll(list), a)
    ensures HasRecord(list) <==> Statistics.HasRecord(WidenAll(list))
  {
    if list != [] {
      KeysAgree(list[1..], a);
      assert WidenAll(list)[1..] == WidenAll(list[1..]);
      if list[0].Some? {
        assert ExtractKeys(list[0].value, a) == Statistics.ExtractKeys(Widen(list[0].value), a);
      }
    }
  }

  /** The older service and the core service count the same records alike. */
  lemma AgreesWithCore(list: Option<seq<Option<LegacySeries>>>, attribute: Option<string>)
    ensures CountByAttribute(list, attribute)
         == Statistics.CountByAttribute(if list.Some? then Some(WidenAll(list.value)) else None, attribute)
  {
    if list.Some? && attribute.Some? && !IsBlank(attribute.value) {
      match Statistics.AttributeNamed(Statistics.Normalise(attribute.value))
      case Some(a) => KeysAgree(list.value, a);
      case None => KeysAgree(list.value, Statistics.Title);
    }
  }
}
