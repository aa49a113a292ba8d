/** The class-level state rule on a series request: a finished series cannot
    lie in the future and an ongoing one cannot start before 1950. The
    current year is a parameter. */
module StateValidator {
  import opened Wrappers
  import opened Dto

  const EarliestOngoingYear := 1950

  /** A violation: the property node it is reported on and its message. */
  datatype Violation = Violation(property: string, message: string)

  /** The years a request's state allows: up to this year when finished, from
      1950 on when ongoing; any year when the flag is null. */
  predicate YearAllowed(finished: Option<bool>, year: int, currentYear: int) {
    match finished
    case None => true
    case Some(true) => year <= currentYear
    case Some(false) => year >= EarliestOngoingYear
  }

  /** The violations `isValid` reports, in the order it adds them. */
  function Violations(request: Option<SeriesRequest>, currentYear: int): (v: seq<Violation>)
    ensures |v| <= 1
    ensures v == [] <==> request.None? || YearAllowed(request.value.finished, request.value.year, currentYear)
    ensures v != [] && request.value.finished == Some(true) ==>
              v[0] == Violation("year", "Finished series cannot be in the future")
    ensures v != [] && request.value.finished == Some(false) ==>
              v[0] == Violation("finished", "Ongoing series cannot start before 1950")
  {
    if request.None? || request.value.finished.None? then []
    else
      var r := request.value;
      (if r.finished == Some(true) && r.year > currentYear
       then [Violation("year", "Finished series cannot be in the future")] else [])
      + (if r.finished == Some(false) && r.year < EarliestOngoingYear
         then [Violation("finished", "Ongoing series cannot start before 1950")] else [])
  }

  /** `isValid`: valid exactly when the year is allowed for the flag, which
      is exactly when no violation is reported. */
  function IsValid(request: Option<SeriesRequest>, currentYear: int): (ok: bool)
    ensures ok <==> request.None? || YearAllowed(request.value.finished, request.value.year, currentYear)
    ensures ok <==> Violations(request, currentYear) == []
  {
    Violations(request, currentYear) == []
  }

  /** Both boundaries are included: a series finished this year and an
      ongoing one from 1950 are valid, one year further out they are not. */
  lemma BoundaryYears(request: SeriesRequest, currentYear: int)
    ensures IsValid(Some(request.(finished := Some(true), year := currentYear)), currentYear)
    ensures !IsValid(Some(request.(finished := Some(true), year := currentYear + 1)), currentYear)
    ensures IsValid(Some(request.(finished := Some(false), year := 1950)), currentYear)
    ensures !IsValid(Some(request.(finished := Some(false), year := 1949)), currentYear)
    ensures IsValid(Some(request.(finished := None)), currentYear)
  {
  }
}
