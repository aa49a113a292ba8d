/** `countByAttribute` of the core statistics service: reject a missing
    attribute, normalise it, extract one or more keys from every non-null
    record, count the keys and order the table. */
module Statistics {
  import opened Wrappers
  import opened Text
  import opened Numbers
  import opened Model
  import Frequency
  import Seqs

  /** The attributes the key switch accepts. */
  datatype Attribute = Title | Genre | Seasons | Rating | Year | Finished

  /** The way the switch spells each attribute. */
  function NameOf(a: Attribute): string {
    match a
    case Title => "title"
    case Genre => "genre"
    case Seasons => "seasons"
    case Rating => "rating"
    case Year => "year"
    case Finished => "finished"
  }

  /** The switch in `extractKeys`: which attribute a normalised name selects. */
  function AttributeNamed(name: string): (r: Option<Attribute>)
    ensures r.Some? ==> NameOf(r.value) == name
    ensures forall a: Attribute :: NameOf(a) == name ==> r == Some(a)
  {
    if name == "title" then Some(Title)
    else if name == "genre" then Some(Genre)
    else if name == "seasons" then Some(Seasons)
    else if name == "rating" then Some(Rating)
    else if name == "year" then Some(Year)
    else if name == "finished" then Some(Finished)
    else None
  }

  /** The two exceptions `countByAttribute` raises. */
  datatype StatsError = EmptyAttribute | UnsupportedAttribute(name: string)

  /** `safe`: a null or blank value becomes "unknown", anything else is
      trimmed. A value made only of control characters that are not Java
      whitespace (U+0000, say) is not blank but trims to the empty key. */
  function Safe(v: Option<string>): (r: string)
    ensures v.None? || IsBlank(v.value) ==> r == "unknown"
    ensures v.Some? && !IsBlank(v.value) ==> IsTrimOf(r, v.value)
  {
    if v.None? || IsBlank(v.value) then "unknown"
    else
      TrimIsTrimOf(v.value);
      Trim(v.value)
  }

  lemma TrimKeepsAbsent(s: string, c: char)
    ensures c !in s ==> c !in Trim(s)
  {
    var r := Trim(s);
    forall i | 0 <= i < |r|
      ensures r[i] == s[Lead(s) + i]
    {
    }
  }

  predicate NonEmpty(g: string) {
    g != []
  }

  /** The genre keys of a genre string: its comma-separated parts, trimmed,
      with the empty ones dropped, in order. */
  function GenreKeys(genre: string): seq<string> {
    Seqs.Filter(Seqs.Map(Split(genre, ','), Trim), NonEmpty)
  }

  /** The loop in `splitGenres`: each part trimmed, and kept when not empty. */
  function GenreParts(parts: seq<string>): (r: seq<string>)
    ensures r == Seqs.Filter(Seqs.Map(parts, Trim), NonEmpty)
    ensures |r| <= |parts|
    ensures forall i | 0 <= i < |r| :: r[i] != [] && IsTrimmed(r[i])
    ensures (forall i | 0 <= i < |parts| :: ',' !in parts[i]) ==> forall i | 0 <= i < |r| :: ',' !in r[i]
  {
    if parts == [] then []
    else
      var g := Trim(parts[0]);
      TrimKeepsAbsent(parts[0], ',');
      assert Seqs.Map(parts, Trim)[1..] == Seqs.Map(parts[1..], Trim);
      (if g != [] then [g] else []) + GenreParts(parts[1..])
  }

  /** `splitGenres`: the non-empty trimmed comma-separated parts, or exactly
      `["unknown"]` when there is none. */
  function SplitGenres(genre: Option<string>): (keys: seq<string>)
    ensures |keys| >= 1
    ensures forall i | 0 <= i < |keys| :: keys[i] != [] && IsTrimmed(keys[i]) && ',' !in keys[i]
    ensures genre.None? || IsBlank(genre.value) ==> keys == ["unknown"]
    ensures genre.Some? && !IsBlank(genre.value) ==>
              keys == if GenreKeys(genre.value) == [] then ["unknown"] else GenreKeys(genre.value)
  {
    if genre.None? || IsBlank(genre.value) then ["unknown"]
    else
      var parts := GenreParts(Split(genre.value, ','));
      if parts == [] then ["unknown"] else parts
  }

  lemma {:induction false} GenrePartsOfTrimmed(gs: seq<string>)
    requires forall i | 0 <= i < |gs| :: gs[i] != [] && IsTrimmed(gs[i])
    ensures GenreParts(gs) == gs
  {
    if gs != [] {
      GenrePartsOfTrimmed(gs[1..]);
      assert Trim(gs[0]) == gs[0];
    }
  }

  lemma JoinNotBlank(gs: seq<string>)
    requires |gs| >= 1
    requires |gs| > 1 || !IsBlank(gs[0])
    ensures !IsBlank(Join(gs, ','))
  {
    var s := Join(gs, ',');
    JoinHead(gs, ',');
    if |gs| > 1 {
      assert s[|gs[0]|] == ',';
    } else {
      assert s == gs[0];
    }
  }

  /** Genres written as one comma-separated string come back one key each. */
  lemma GenresRoundTrip(gs: seq<string>)
    requires |gs| >= 1
    requires forall i | 0 <= i < |gs| :: gs[i] != [] && IsTrimmed(gs[i]) && ',' !in gs[i]
    requires |gs| > 1 || !IsBlank(gs[0])
    ensures SplitGenres(Some(Join(gs, ','))) == gs
  {
    SplitJoin(gs, ',');
    GenrePartsOfTrimmed(gs);
    JoinNotBlank(gs);
  }

  /** A genre list with a space after the comma gives one trimmed key per
      genre. */
  lemma SpacedGenres()
    ensures SplitGenres(Some("Drama, Sci-Fi")) == ["Drama", "Sci-Fi"]
  {
    var g := "Drama, Sci-Fi";
    assert !IsWhitespace(g[0]);
    SplitSpaced();
    SpacedParts();
  }

  lemma SplitSpaced()
    ensures Split("Drama, Sci-Fi", ',') == ["Drama", " Sci-Fi"]
  {
    var parts := ["Drama", " Sci-Fi"];
    assert Join(parts[1..], ',') == " Sci-Fi";
    assert Join(parts, ',') == "Drama, Sci-Fi";
    SplitJoin(parts, ',');
  }

  lemma SpacedParts()
    ensures GenreParts(["Drama", " Sci-Fi"]) == ["Drama", "Sci-Fi"]
  {
    TrimLeadingSpace();
    assert Trim("Drama") == "Drama";
    assert GenreParts([" Sci-Fi"]) == ["Sci-Fi"] by {
      assert [" Sci-Fi"][1..] == [];
    }
    assert ["Drama", " Sci-Fi"][1..] == [" Sci-Fi"];
  }

  lemma TrimLeadingSpace()
    ensures Trim(" Sci-Fi") == "Sci-Fi"
  {
    assert TrimSplit(" Sci-Fi", "Sci-Fi", 1);
    TrimUnique(" Sci-Fi", "Sci-Fi");
  }

  /** A genre of commas alone has no key of its own and counts as unknown. */
  lemma CommasOnly()
    ensures SplitGenres(Some(",,")) == ["unknown"]
  {
    var g := ",,";
    assert !IsWhitespace(g[0]);
    assert g == "" + [','] + ",";
    assert "," == "" + [','] + "";
    SplitPrefix("", ',', "");
    SplitPrefix("", ',', ",");
    var parts := Split(g, ',');
    assert parts == ["", "", ""];
    assert GenreParts(parts) == [];
  }

  /** `extractKeys`: the keys one record contributes under a supported
      attribute. Every scalar key reads back as the field it came from. */
  function ExtractKeys(s: Series, a: Attribute): (keys: seq<string>)
    ensures |keys| >= 1
    ensures a != Genre ==> |keys| == 1
    ensures a == Title ==> keys == [Safe(s.title)]
    ensures a == Genre ==> keys == SplitGenres(s.genre)
    ensures a == Seasons ==> ParseInt(keys[0]) == Some(s.seasons)
    ensures a == Rating ==> ParseTenths(keys[0]) == Some(s.rating)
    ensures a == Year ==> ParseInt(keys[0]) == Some(s.year)
    ensures a == Finished ==> ParseBool(keys[0]) == Some(s.finished)
  {
    IntToStringRoundTrip(s.seasons);
    IntToStringRoundTrip(s.year);
    FormatTenthsRoundTrip(s.rating);
    NumbersArePlain(0, 0);
    match a
    case Title => [Safe(s.title)]
    case Genre => SplitGenres(s.genre)
    case Seasons => [IntToString(s.seasons)]
    case Rating => [FormatTenths(s.rating)]
    case Year => [IntToString(s.year)]
    case Finished => [BoolToString(s.finished)]
  }

  /** All keys of the non-null records, record by record. */
  function Keys(list: seq<Option<Series>>, a: Attribute): seq<string> {
    Seqs.FlatMap(list, KeysOf(a))
  }

  /** The keys of one list element: none for a null record. */
  function RecordKeys(r: Option<Series>, a: Attribute): seq<string> {
    if r.Some? then ExtractKeys(r.value, a) else []
  }

  function KeysOf(a: Attribute): Option<Series> -> seq<string> {
    r => RecordKeys(r, a)
  }

  predicate HasRecord(list: seq<Option<Series>>) {
    exists i | 0 <= i < |list| :: list[i].Some?
  }

  lemma KeysAppend(l1: seq<Option<Series>>, l2: seq<Option<Series>>, a: Attribute)
    ensures Keys(l1 + l2, a) == Keys(l1, a) + Keys(l2, a)
  {
    Seqs.FlatMapAppend(l1, l2, KeysOf(a));
  }

  /** A null record contributes no key, wherever it sits. */
  lemma NullRecordsSkipped(l1: seq<Option<Series>>, l2: seq<Option<Series>>, a: Attribute)
    ensures Keys(l1 + [None] + l2, a) == Keys(l1 + l2, a)
  {
    KeysAppend(l1 + [None], l2, a);
    KeysAppend(l1, [None], a);
    KeysAppend(l1, l2, a);
  }

  /** The keys are nonempty exactly when some record is non-null. */
  lemma {:induction false} KeysEmpty(list: seq<Option<Series>>, a: Attribute)
    ensures Keys(list, a) == [] <==> !HasRecord(list)
  {
    if list != [] {
      KeysEmpty(list[1..], a);
      if HasRecord(list[1..]) {
        var i :| 0 <= i < |list[1..]| && list[1..][i].Some?;
        assert list[i + 1].Some?;
      }
      if HasRecord(list) && list[0].None? {
        var i :| 0 <= i < |list| && list[i].Some?;
        assert list[1..][i - 1].Some?;
      }
    }
  }

  /** The attribute after `trim().toLowerCase()`: already lower case, and
      the trimmed attribute up to case. */
  function Normalise(attribute: string): (r: string)
    ensures Lower(r) == r
    ensures IsTrimmed(r)
    ensures EqualsIgnoreCase(r, Trim(attribute))
    ensures forall t | IsTrimOf(t, attribute) :: r == Lower(t)
  {
    LowerIdempotent(Trim(attribute));
    LowerKeepsTrimmed(Trim(attribute));
    forall t | IsTrimOf(t, attribute)
      ensures Lower(Trim(attribute)) == Lower(t)
    {
      TrimUnique(attribute, t);
    }
    Lower(Trim(attribute))
  }

  /** `countByAttribute`. A null list gives an empty table before the
      attribute is looked at; a missing or blank attribute is rejected; an
      unsupported one only when a non-null record reaches the key switch. */
  function CountByAttribute(list: Option<seq<Option<Series>>>, attribute: Option<string>)
    : (r: Result<seq<Frequency.Entry>, StatsError>)
    ensures list.None? ==> r == Success([])
    ensures list.Some? && (attribute.None? || IsBlank(attribute.value)) ==> r == Failure(EmptyAttribute)
    ensures r.Failure? && r.error.UnsupportedAttribute? ==>
              && list.Some? && attribute.Some?
              && r.error.name == Normalise(attribute.value)
              && AttributeNamed(r.error.name).None?
              && HasRecord(list.value)
    ensures list.Some? && attribute.Some? && !IsBlank(attribute.value) ==>
              match AttributeNamed(Normalise(attribute.value))
              case Some(a) =>
                r.Success? && Frequency.IsFrequencyTable(r.value, Keys(list.value, a))
                && Frequency.Sum(r.value) == |Keys(list.value, a)|
              case None =>
                r == (if HasRecord(list.value) then Failure(UnsupportedAttribute(Normalise(attribute.value)))
                      else Success([]))
  {
    if list.None? then Success([])
    else if attribute.None? || IsBlank(attribute.value) then Failure(EmptyAttribute)
    else
      var name := Normalise(attribute.value);
      match AttributeNamed(name)
      case None =>
        if HasRecord(list.value) then Failure(UnsupportedAttribute(name)) else Success([])
      case Some(a) => Success(Frequency.Table(Keys(list.value, a)))
  }
}
