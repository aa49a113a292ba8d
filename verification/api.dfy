/** The report, download and import flows of the series API service. The
    repository query behind a report, the clock, the job-id generator, the
    Excel and JSON writers, the JSON reader, the bean validator and the
    series repository's `create` are parameters. */
module SeriesApi {
  import opened Wrappers
  import opened Text
  import opened Model
  import opened Dto
  import Utf8
  import ReportCsv
  import ReportStore
  import Timestamp
  import Studios
  import Mapper
  import StateValidator
  import Numbers

  // ---------------------------------------------------------------- reports

  const XlsxType := "application/vnd.openxmlformats-officedocument.spreadsheetml.sheet"
  const JsonType := "application/json"
  const CsvType := "text/csv"
  const ReportPrefix := "series-report-"
  const DownloadPath := "/api/v1/series/_report/"

  /** The requested format: `csv` when null or blank, otherwise lower-cased. */
  function NormaliseFormat(format: Option<string>): (f: string)
    ensures format.None? || IsBlank(format.value) ==> f == "csv"
    ensures format.Some? && !IsBlank(format.value) ==>
              EqualsIgnoreCase(f, format.value) && Lower(f) == f && |f| == |format.value|
  {
    if format.None? || IsBlank(format.value) then "csv"
    else
      LowerIdempotent(format.value);
      Lower(format.value)
  }

  /** The three writers a report can come from. */
  datatype Writer = ExcelWriter | JsonWriter | CsvWriter

  /** The first switch on the format: which writer renders the report. */
  function WriterFor(format: string): Writer {
    match format
    case "xlsx" => ExcelWriter
    case "json" => JsonWriter
    case _ => CsvWriter
  }

  /** The second switch: the file name's extension. */
  function Extension(format: string): string {
    match format
    case "xlsx" => ".xlsx"
    case "json" => ".json"
    case _ => ".csv"
  }

  /** The third switch: the content type. */
  function ContentType(format: string): string {
    match format
    case "xlsx" => XlsxType
    case "json" => JsonType
    case _ => CsvType
  }

  /** The three switches agree: each writer comes with its own extension and
      content type, and no two writers share either. */
  lemma SwitchesAgree(format: string)
    ensures WriterFor(format) == ExcelWriter <==> Extension(format) == ".xlsx"
    ensures WriterFor(format) == ExcelWriter <==> ContentType(format) == XlsxType
    ensures WriterFor(format) == JsonWriter <==> Extension(format) == ".json"
    ensures WriterFor(format) == JsonWriter <==> ContentType(format) == JsonType
    ensures WriterFor(format) == CsvWriter <==> Extension(format) == ".csv"
    ensures WriterFor(format) == CsvWriter <==> ContentType(format) == CsvType
  {
  }

  lemma LowerOfLiteral()
    ensures Lower("xlsx") == "xlsx" && Lower("json") == "json"
  {
  }

  /** The format is chosen ignoring case; anything but `xlsx` and `json`,
      including a null or blank format, gives CSV. */
  lemma FormatIgnoresCase(format: Option<string>)
    ensures WriterFor(NormaliseFormat(format)) == ExcelWriter
        <==> format.Some? && EqualsIgnoreCase(format.value, "xlsx")
    ensures WriterFor(NormaliseFormat(format)) == JsonWriter
        <==> format.Some? && EqualsIgnoreCase(format.value, "json")
  {
    LowerOfLiteral();
    if format.Some? {
      LowerKeepsBlank(format.value);
      if IsBlank(format.value) {
        assert IsBlank(Lower(format.value));
        assert !IsBlank("xlsx") by { assert !IsWhitespace("xlsx"[0]); }
        assert !IsBlank("json") by { assert !IsWhitespace("json"[0]); }
      }
    }
  }

  /** Why no report was produced: the CSV writer's own fault, or the
      exception the Excel and JSON writers wrap every failure in. */
  datatype ReportError = CsvFailed(csv: ReportCsv.CsvError) | WriterFailed(message: string)

  const ExcelFailure := "Failed to write Excel report"
  const JsonFailure := "Failed to write JSON report"

  /** Every record has a studio. */
  predicate AllHaveStudios(list: seq<Series>) {
    forall i | 0 <= i < |list| :: list[i].studio.Some?
  }

  /** `ReportExcelWriter.write`. Each row reads its record's studio name, so
      a record without a studio fails the report; `workbook` is the
      spreadsheet library building and serialising the sheet, `None` when it
      throws. Either failure is reported as the one wrapped exception. */
  function ExcelWrite(list: seq<Series>, workbook: seq<Series> -> Option<seq<Utf8.Byte>>)
    : (r: Result<seq<Utf8.Byte>, ReportError>)
    ensures r.Success? <==> AllHaveStudios(list) && workbook(list).Some?
    ensures r.Success? ==> r.value == workbook(list).value
    ensures r.Failure? ==> r.error == WriterFailed(ExcelFailure)
  {
    if !AllHaveStudios(list) then Failure(WriterFailed(ExcelFailure))
    else
      match workbook(list)
      case None => Failure(WriterFailed(ExcelFailure))
      case Some(bytes) => Success(bytes)
  }

  /** `ReportJsonWriter.write`: `json` is the object mapper's pretty-printed
      serialisation, `None` when it throws. */
  function JsonWrite(list: seq<Series>, json: seq<Series> -> Option<seq<Utf8.Byte>>)
    : (r: Result<seq<Utf8.Byte>, ReportError>)
    ensures r.Success? <==> json(list).Some?
    ensures r.Success? ==> r.value == json(list).value
    ensures r.Failure? ==> r.error == WriterFailed(JsonFailure)
  {
    match json(list)
    case None => Failure(WriterFailed(JsonFailure))
    case Some(bytes) => Success(bytes)
  }

  /** A record without a studio fails the spreadsheet and the CSV report
      alike, whatever the spreadsheet library would have done. */
  lemma StudioLessRecordFailsTabularReports(list: seq<Series>, i: nat,
                                            workbook: seq<Series> -> Option<seq<Utf8.Byte>>)
    requires i < |list| && list[i].studio.None?
    ensures ExcelWrite(list, workbook) == Failure(WriterFailed(ExcelFailure))
    ensures ReportCsv.Write(list).Failure? && ReportCsv.Write(list).error.index <= i
  {
  }

  /** The report's bytes, from the writer the format selects. The CSV text is
      encoded as UTF-8. Rendering fails exactly when that writer fails. */
  function Render(w: Writer, list: seq<Series>,
                  workbook: seq<Series> -> Option<seq<Utf8.Byte>>,
                  json: seq<Series> -> Option<seq<Utf8.Byte>>)
    : (r: Result<seq<Utf8.Byte>, ReportError>)
    ensures w == ExcelWriter ==> (r.Success? <==> AllHaveStudios(list) && workbook(list).Some?)
    ensures w == ExcelWriter ==> r == ExcelWrite(list, workbook)
    ensures w == JsonWriter ==> (r.Success? <==> json(list).Some?)
    ensures w == JsonWriter ==> r == JsonWrite(list, json)
    ensures w == CsvWriter ==> (r.Success? <==> AllHaveStudios(list))
    ensures w == CsvWriter && r.Success? ==> Utf8.Decode(r.value) == Some(ReportCsv.Write(list).value)
    ensures w == CsvWriter && r.Failure? ==> r.error == CsvFailed(ReportCsv.Write(list).error)
  {
    match w
    case ExcelWriter => ExcelWrite(list, workbook)
    case JsonWriter => JsonWrite(list, json)
    case CsvWriter =>
      match ReportCsv.Write(list)
      case Failure(e) => Failure(CsvFailed(e))
      case Success(text) =>
        Utf8.DecodeEncode(text);
        Success(Utf8.Encode(text))
  }

  /** What the service answers: the accepted job, a file download, or 404. */
  datatype Response =
    | Accepted(jobId: string, downloadUrl: string)
    | Attachment(disposition: string, contentType: string, body: seq<Utf8.Byte>)
    | NotFound

  function Disposition(filename: string): string {
    "attachment; filename=\"" + filename + "\""
  }

  /** The name of a report generated at `now` in `format`. */
  function ReportName(now: Timestamp.DateTime, format: string): (name: string)
    requires Timestamp.Fits(now)
    ensures |name| == |ReportPrefix| + 15 + |Extension(format)|
    ensures name[..|ReportPrefix|] == ReportPrefix
    ensures name[|ReportPrefix|..|ReportPrefix| + 15] == Timestamp.Stamp(now)
    ensures EndsWith(name, Extension(format))
  {
    ReportPrefix + Timestamp.Stamp(now) + Extension(format)
  }

  /** The clock reading can be read back out of a report's name, so reports
      generated at different times have different names. */
  lemma ReportNameCarriesClock(now: Timestamp.DateTime, later: Timestamp.DateTime, format: string)
    requires Timestamp.Fits(now) && Timestamp.Fits(later)
    ensures Timestamp.ParseStamp(ReportName(now, format)[|ReportPrefix|..|ReportPrefix| + 15]) == now
    ensures now != later ==> ReportName(now, format) != ReportName(later, format)
  {
    Timestamp.StampRoundTrip(now);
    if now != later {
      Timestamp.StampInjective(now, later);
      var a := ReportName(now, format);
      var b := ReportName(later, format);
      assert a[|ReportPrefix|..|ReportPrefix| + 15] != b[|ReportPrefix|..|ReportPrefix| + 15];
    }
  }

  /** `generateReport`. The report is rendered by the writer the format
      selects. Asynchronously it is stored under the new job id and the answer
      says where to fetch it; synchronously it is the answer itself and the
      store is untouched. */
  function GenerateReport(request: ListRequest, list: seq<Series>, now: Timestamp.DateTime,
                          jobId: string, store: ReportStore.Store,
                          workbook: seq<Series> -> Option<seq<Utf8.Byte>>,
                          json: seq<Series> -> Option<seq<Utf8.Byte>>)
    : (r: Result<(Response, ReportStore.Store), ReportError>)
    requires Timestamp.Fits(now)
    ensures r.Failure? <==> Render(WriterFor(NormaliseFormat(request.format)), list, workbook, json).Failure?
    ensures r.Failure? ==> r.error == Render(WriterFor(NormaliseFormat(request.format)), list, workbook, json).error
    ensures r.Success? && request.async != Some(true) ==>
              && r.value.1 == store
              && r.value.0.Attachment?
              && r.value.0.disposition == Disposition(ReportName(now, NormaliseFormat(request.format)))
              && r.value.0.contentType == ContentType(NormaliseFormat(request.format))
              && Success(r.value.0.body) == Render(WriterFor(NormaliseFormat(request.format)), list, workbook, json)
    ensures r.Success? && request.async == Some(true) ==>
              && r.value.0 == Accepted(jobId, DownloadPath + jobId)
              && r.value.1.Keys == store.Keys + {jobId}
              && (forall other | other != jobId :: ReportStore.Get(r.value.1, other) == ReportStore.Get(store, other))
  {
    var format := NormaliseFormat(request.format);
    var w := WriterFor(format);
    var data :- Render(w, list, workbook, json);
    var filename := ReportName(now, format);
    var contentType := ContentType(format);
    if request.async == Some(true) then
      Success((Accepted(jobId, DownloadPath + jobId),
               ReportStore.Put(store, jobId, data, filename, contentType)))
    else
      Success((Attachment(Disposition(filename), contentType, data), store))
  }

  /** `downloadReport`: 404 for an unknown job, otherwise the stored report
      with its file name and content type. */
  function DownloadReport(store: ReportStore.Store, jobId: string): (r: Response)
    ensures r.NotFound? <==> jobId !in store
    ensures !r.Accepted?
    ensures r.Attachment? ==>
              && r.body == store[jobId].data
              && r.contentType == store[jobId].contentType
              && r.disposition == Disposition(store[jobId].filename)
  {
    match ReportStore.Get(store, jobId)
    case None => NotFound
    case Some(report) => Attachment(Disposition(report.filename), report.contentType, report.data)
  }

  /** Fetching an asynchronous job gives exactly the answer the same request
      would have had synchronously; the two fail together. */
  lemma AsyncDownloadMatchesSync(request: ListRequest, list: seq<Series>, now: Timestamp.DateTime,
                                 jobId: string, store: ReportStore.Store,
                                 workbook: seq<Series> -> Option<seq<Utf8.Byte>>,
                          json: seq<Series> -> Option<seq<Utf8.Byte>>)
    requires Timestamp.Fits(now)
    ensures var asyncRun := GenerateReport(request.(async := Some(true)), list, now, jobId, store, workbook, json);
            var syncRun := GenerateReport(request.(async := None), list, now, jobId, store, workbook, json);
            && (asyncRun.Success? <==> syncRun.Success?)
            && (asyncRun.Success? ==> DownloadReport(asyncRun.value.1, jobId) == syncRun.value.0)
  {
  }

  /** Generating one job does not change what any other job id downloads. */
  lemma OtherJobsUnaffected(request: ListRequest, list: seq<Series>, now: Timestamp.DateTime,
                            jobId: string, store: ReportStore.Store, other: string,
                            workbook: seq<Series> -> Option<seq<Utf8.Byte>>,
                          json: seq<Series> -> Option<seq<Utf8.Byte>>)
    requires Timestamp.Fits(now) && other != jobId
    ensures GenerateReport(request, list, now, jobId, store, workbook, json).Success? ==>
              DownloadReport(GenerateReport(request, list, now, jobId, store, workbook, json).value.1, other)
              == DownloadReport(store, other)
  {
    var r := GenerateReport(request, list, now, jobId, store, workbook, json);
    if r.Success? {
      assert ReportStore.Get(r.value.1, other) == ReportStore.Get(store, other);
    }
  }

  // ----------------------------------------------------------------- import

  /** What an import step throws: an exception with a possibly-null message,
      or the repository's non-unique-result failure for a studio name several
      studios hold. */
  datatype Fault = Raised(message: Option<string>) | NonUniqueStudio

  function StudioFault(e: Studios.StudioError): Fault {
    match e
    case NotFound(m) => Raised(Some(m))
    case Conflict(m) => Raised(Some(m))
    case Ambiguous => NonUniqueStudio
  }

  /** `toRequest`: the import item as a create request, its studio looked up
      by name ignoring case; missing numbers default to zero. */
  function ToRequest(reg: Studios.Registry, item: Option<ImportItem>): (r: Result<SeriesRequest, Fault>)
    ensures item.None? ==> r == Failure(Raised(Some("Empty item")))
    ensures item.Some? && (item.value.studio.None? || item.value.studio.value.name.None?
                           || IsBlank(item.value.studio.value.name.value))
            ==> r == Failure(Raised(Some("Studio name is required")))
    ensures item.Some? && item.value.studio.Some? && item.value.studio.value.name.Some?
            && !IsBlank(item.value.studio.value.name.value)
            && Studios.Holders(reg, item.value.studio.value.name.value) == {}
            ==> r == Failure(Raised(Some("Studio not found: " + item.value.studio.value.name.value)))
    ensures r.Success? ==>
              && item.Some? && item.value.studio.Some? && item.value.studio.value.name.Some?
              && (exists id | id in reg :: r.value.studioId == Some(id)
                                            && EqualsIgnoreCase(reg[id].name, item.value.studio.value.name.value))
              && r.value.title == item.value.title && r.value.genre == item.value.genre
              && r.value.seasons == item.value.seasons.GetOr(0)
              && r.value.rating == item.value.rating.GetOr(0)
              && r.value.year == item.value.year.GetOr(0)
              && r.value.finished == item.value.finished
  {
    if item.None? then Failure(Raised(Some("Empty item")))
    else
      var it := item.value;
      if it.studio.None? || it.studio.value.name.None? || IsBlank(it.studio.value.name.value) then
        Failure(Raised(Some("Studio name is required")))
      else
        match Studios.FindByName(reg, it.studio.value.name.value)
        case Failure(e) => Failure(StudioFault(e))
        case Success(studio) =>
          Success(SeriesRequest(it.title, it.genre, it.seasons.GetOr(0), it.rating.GetOr(0),
                                it.year.GetOr(0), it.finished, studio.id))
  }

  /** An item whose studio name is held by exactly one studio becomes a
      request for that studio. */
  lemma RegisteredStudioResolves(reg: Studios.Registry, item: ImportItem, id: int)
    requires item.studio.Some? && item.studio.value.name.Some?
    requires !IsBlank(item.studio.value.name.value)
    requires Studios.Holders(reg, item.studio.value.name.value) == {id}
    ensures ToRequest(reg, Some(item)).Success?
    ensures ToRequest(reg, Some(item)).value.studioId == Some(id)
  {
    var name := item.studio.value.name.value;
    Studios.SingletonElement(Studios.Holders(reg, name));
    assert id in Studios.Holders(reg, name);
  }

  /** The details of a rejected item: the validator's `path: message` lines,
      the exception's message (`error` when it has none), or the repository's
      non-unique-result message, whose text is not modelled. */
  datatype Details = Violations(lines: seq<string>) | Message(text: string) | NonUniqueResult

  function DetailsOf(f: Fault): (d: Details)
    ensures f.Raised? ==> d == Message(f.message.GetOr("error"))
  {
    match f
    case Raised(m) => Message(m.GetOr("error"))
    case NonUniqueStudio => NonUniqueResult
  }

  function ViolationLines(v: seq<StateValidator.Violation>): (lines: seq<string>)
    ensures |lines| == |v|
    ensures forall i | 0 <= i < |v| :: lines[i] == v[i].property + ": " + v[i].message
  {
    if v == [] then [] else [v[0].property + ": " + v[0].message] + ViolationLines(v[1..])
  }

  /** The outcome for one item: imported, or rejected with a reason
      (`validation` or `import`) and details. */
  datatype Outcome = Imported | Rejected(reason: string, details: Details)

  /** One item: convert, validate, create. The series database is the state
      `S`; only a successful create changes it. */
  function ImportOne<S>(reg: Studios.Registry, state: S, item: Option<ImportItem>,
                        validate: SeriesRequest -> seq<StateValidator.Violation>,
                        create: (S, Series, Option<int>) -> Result<S, Option<string>>)
    : (r: (Outcome, S))
    ensures r.0.Rejected? ==> r.1 == state
    ensures r.0.Rejected? ==> r.0.reason in {"validation", "import"}
    ensures r.0.Imported? <==>
              && ToRequest(reg, item).Success?
              && validate(ToRequest(reg, item).value) == []
              && create(state, Mapper.ToEntity(ToRequest(reg, item).value),
                        ToRequest(reg, item).value.studioId).Success?
    ensures r.0 == Rejected("validation", Violations(ViolationLines(validate(ToRequest(reg, item).value))))
            <== ToRequest(reg, item).Success? && validate(ToRequest(reg, item).value) != []
    ensures var t := ToRequest(reg, item);
            t.Failure? && t.error.Raised? ==> r.0 == Rejected("import", Message(t.error.message.GetOr("error")))
    ensures var t := ToRequest(reg, item);
            t.Failure? && t.error.NonUniqueStudio? ==> r.0 == Rejected("import", NonUniqueResult)
    ensures var t := ToRequest(reg, item);
            t.Success? && validate(t.value) == [] ==>
              var c := create(state, Mapper.ToEntity(t.value), t.value.studioId);
              && (c.Failure? ==> r.0 == Rejected("import", Message(c.error.GetOr("error"))))
              && (c.Success? ==> r.1 == c.value)
  {
    match ToRequest(reg, item)
    case Failure(f) => (Rejected("import", DetailsOf(f)), state)
    case Success(req) =>
      var violations := validate(req);
      if violations != [] then (Rejected("validation", Violations(ViolationLines(violations))), state)
      else
        match create(state, Mapper.ToEntity(req), req.studioId)
        case Failure(m) => (Rejected("import", Message(m.GetOr("error"))), state)
        case Success(s) => (Imported, s)
  }

  /** One rejected item as the response lists it: its 1-based position, the
      reason and the details. */
  datatype ImportError = ImportError(index: nat, reason: string, details: Details)

  /** The counters and errors so far, and the database. */
  datatype Progress<S> = Progress(success: nat, failed: nat, errors: seq<ImportError>, state: S)

  /** The error indices are positions `from` .. `to` - 1, strictly increasing. */
  predicate IndicesIn(errors: seq<ImportError>, from: nat, to: nat) {
    && (forall i | 0 <= i < |errors| :: from <= errors[i].index < to)
    && (forall i, j | 0 <= i < j < |errors| :: errors[i].index < errors[j].index)
  }

  function Step<S>(reg: Studios.Registry, p: Progress<S>, index: nat, item: Option<ImportItem>,
                   validate: SeriesRequest -> seq<StateValidator.Violation>,
                   create: (S, Series, Option<int>) -> Result<S, Option<string>>)
    : (q: Progress<S>)
    ensures q.success + q.failed == p.success + p.failed + 1
    ensures q.failed == p.failed + |q.errors| - |p.errors|
    ensures |p.errors| <= |q.errors| <= |p.errors| + 1 && q.errors[..|p.errors|] == p.errors
    ensures |q.errors| > |p.errors| ==> q.errors == p.errors + [q.errors[|p.errors|]] && q.errors[|p.errors|].index == index
    ensures var o := ImportOne(reg, p.state, item, validate, create);
            && (o.0.Imported? ==> q == p.(success := p.success + 1, state := o.1))
            && (o.0.Rejected? ==>
                  q == p.(failed := p.failed + 1,
                          errors := p.errors + [ImportError(index, o.0.reason, o.0.details)],
                          state := o.1))
  {
    var (outcome, s) := ImportOne(reg, p.state, item, validate, create);
    match outcome
    case Imported => p.(success := p.success + 1, state := s)
    case Rejected(reason, details) =>
      p.(failed := p.failed + 1, errors := p.errors + [ImportError(index, reason, details)], state := s)
  }

  lemma IndicesCons(e: ImportError, rest: seq<ImportError>, next: nat, to: nat)
    requires e.index == next < to && IndicesIn(rest, next + 1, to)
    ensures IndicesIn([e] + rest, next, to)
  {
    var all := [e] + rest;
    forall i, j | 0 <= i < j < |all|
      ensures all[i].index < all[j].index
    {
      assert all[j] == rest[j - 1];
      if i > 0 {
        assert all[i] == rest[i - 1];
      }
    }
  }

  lemma IndicesWiden(errors: seq<ImportError>, next: nat, to: nat)
    requires IndicesIn(errors, next + 1, to)
    ensures IndicesIn(errors, next, to)
  {
  }

  /** The loop over the items read, numbering them from `next`. Every item is
      counted once, as a success or as a failure whose error is appended. */
  function ImportAll<S>(reg: Studios.Registry, p: Progress<S>, items: seq<Option<ImportItem>>, next: nat,
                        validate: SeriesRequest -> seq<StateValidator.Violation>,
                        create: (S, Series, Option<int>) -> Result<S, Option<string>>)
    : (q: Progress<S>)
    ensures q.success + q.failed == p.success + p.failed + |items|
    ensures |q.errors| >= |p.errors| && q.errors == p.errors + q.errors[|p.errors|..]
    ensures q.failed == p.failed + |q.errors| - |p.errors|
    ensures IndicesIn(q.errors[|p.errors|..], next, next + |items|)
    decreases |items|
  {
    if items == [] then p
    else
      var p' := Step(reg, p, next, items[0], validate, create);
      var q := ImportAll(reg, p', items[1..], next + 1, validate, create);
      NewErrors(p, p', q, next, |items|);
      q
  }

  /** The errors one step and the rest of the loop add, joined. */
  lemma NewErrors<S>(p: Progress<S>, p': Progress<S>, q: Progress<S>, next: nat, n: nat)
    requires n >= 1
    requires |p'.errors| >= |p.errors| && p'.errors[..|p.errors|] == p.errors
    requires |p'.errors| <= |p.errors| + 1
    requires |p'.errors| > |p.errors| ==> p'.errors == p.errors + [p'.errors[|p.errors|]]
    requires |p'.errors| > |p.errors| ==> p'.errors[|p.errors|].index == next
    requires |q.errors| >= |p'.errors| && q.errors == p'.errors + q.errors[|p'.errors|..]
    requires IndicesIn(q.errors[|p'.errors|..], next + 1, next + n)
    ensures |q.errors| >= |p.errors| && q.errors == p.errors + q.errors[|p.errors|..]
    ensures IndicesIn(q.errors[|p.errors|..], next, next + n)
  {
    var tail := q.errors[|p'.errors|..];
    if |p'.errors| > |p.errors| {
      var e := p'.errors[|p.errors|];
      AppendedAfter(p.errors, [e], tail, q.errors);
      IndicesCons(e, tail, next, next + n);
    } else {
      assert p'.errors == p'.errors[..|p.errors|];
      IndicesWiden(tail, next, next + n);
    }
  }

  lemma AppendedAfter<T>(a: seq<T>, b: seq<T>, c: seq<T>, all: seq<T>)
    requires all == (a + b) + c
    ensures |all| >= |a| && all[|a|..] == b + c && all == a + all[|a|..]
  {
    assert all == a + (b + c);
  }

  /** When every item converts, validates and is created, nothing fails. */
  lemma {:induction false} CleanItemsAllImported<S>(
    reg: Studios.Registry, p: Progress<S>, items: seq<Option<ImportItem>>, next: nat,
    validate: SeriesRequest -> seq<StateValidator.Violation>,
    create: (S, Series, Option<int>) -> Result<S, Option<string>>)
    requires forall i | 0 <= i < |items| :: ToRequest(reg, items[i]).Success?
    requires forall i | 0 <= i < |items| :: validate(ToRequest(reg, items[i]).value) == []
    requires forall s: S, e: Series, id: Option<int> :: create(s, e, id).Success?
    ensures ImportAll(reg, p, items, next, validate, create).failed == p.failed
    ensures ImportAll(reg, p, items, next, validate, create).success == p.success + |items|
    decreases |items|
  {
    if items != [] {
      var p' := Step(reg, p, next, items[0], validate, create);
      assert p'.errors == p.errors;
      CleanItemsAllImported(reg, p', items[1..], next + 1, validate, create);
    }
  }

  /** An item refused before the database is touched, because it does not
      convert or does not validate, whatever the database holds. */
  predicate RefusedOutright(reg: Studios.Registry, item: Option<ImportItem>,
                            validate: SeriesRequest -> seq<StateValidator.Violation>)
  {
    ToRequest(reg, item).Failure? || validate(ToRequest(reg, item).value) != []
  }

  /** Such an item is rejected the same way in every database state. */
  lemma RefusedOutrightIgnoresState<S>(reg: Studios.Registry, s: S, s': S, item: Option<ImportItem>,
                                       validate: SeriesRequest -> seq<StateValidator.Violation>,
                                       create: (S, Series, Option<int>) -> Result<S, Option<string>>)
    requires RefusedOutright(reg, item, validate)
    ensures ImportOne(reg, s, item, validate, create).0.Rejected?
    ensures ImportOne(reg, s, item, validate, create).0 == ImportOne(reg, s', item, validate, create).0
  {
  }

  /** The counterpart of `CleanItemsAllImported`: an item refused outright is
      listed among the new errors under its own position, with the reason and
      details `ImportOne` gives it. */
  lemma {:induction false} RefusedItemListed<S>(
    reg: Studios.Registry, p: Progress<S>, items: seq<Option<ImportItem>>, next: nat,
    validate: SeriesRequest -> seq<StateValidator.Violation>,
    create: (S, Series, Option<int>) -> Result<S, Option<string>>, i: nat)
    requires i < |items| && RefusedOutright(reg, items[i], validate)
    ensures var o := ImportOne(reg, p.state, items[i], validate, create).0;
            ImportError(next + i, o.reason, o.details)
              in ImportAll(reg, p, items, next, validate, create).errors[|p.errors|..]
    decreases |items|
  {
    var p' := Step(reg, p, next, items[0], validate, create);
    if i == 0 {
      RefusedFirstListed(reg, p, p', items, next, validate, create);
    } else {
      RefusedItemListed(reg, p', items[1..], next + 1, validate, create, i - 1);
      RefusedLaterListed(reg, p, p', items, next, validate, create, i);
    }
  }

  lemma RefusedFirstListed<S>(
    reg: Studios.Registry, p: Progress<S>, p': Progress<S>, items: seq<Option<ImportItem>>, next: nat,
    validate: SeriesRequest -> seq<StateValidator.Violation>,
    create: (S, Series, Option<int>) -> Result<S, Option<string>>)
    requires items != [] && RefusedOutright(reg, items[0], validate)
    requires p' == Step(reg, p, next, items[0], validate, create)
    ensures var o := ImportOne(reg, p.state, items[0], validate, create).0;
            ImportError(next, o.reason, o.details)
              in ImportAll(reg, p, items, next, validate, create).errors[|p.errors|..]
  {
    var o := ImportOne(reg, p.state, items[0], validate, create).0;
    var q := ImportAll(reg, p', items[1..], next + 1, validate, create);
    assert ImportAll(reg, p, items, next, validate, create) == q;
    ListedAfter(p.errors, p'.errors, q.errors, ImportError(next, o.reason, o.details));
  }

  lemma RefusedLaterListed<S>(
    reg: Studios.Registry, p: Progress<S>, p': Progress<S>, items: seq<Option<ImportItem>>, next: nat,
    validate: SeriesRequest -> seq<StateValidator.Violation>,
    create: (S, Series, Option<int>) -> Result<S, Option<string>>, i: nat)
    requires 0 < i < |items| && RefusedOutright(reg, items[i], validate)
    requires p' == Step(reg, p, next, items[0], validate, create)
    requires var o := ImportOne(reg, p'.state, items[1..][i - 1], validate, create).0;
             ImportError(next + 1 + (i - 1), o.reason, o.details)
               in ImportAll(reg, p', items[1..], next + 1, validate, create).errors[|p'.errors|..]
    ensures var o := ImportOne(reg, p.state, items[i], validate, create).0;
            ImportError(next + i, o.reason, o.details)
              in ImportAll(reg, p, items, next, validate, create).errors[|p.errors|..]
  {
    var q := ImportAll(reg, p', items[1..], next + 1, validate, create);
    assert ImportAll(reg, p, items, next, validate, create) == q;
    assert items[1..][i - 1] == items[i];
    RefusedOutrightIgnoresState(reg, p.state, p'.state, items[i], validate, create);
    var o := ImportOne(reg, p.state, items[i], validate, create).0;
    ListedLater(p.errors, p'.errors, q.errors, ImportError(next + i, o.reason, o.details));
  }

  lemma ListedAfter(before: seq<ImportError>, mid: seq<ImportError>, after: seq<ImportError>, e: ImportError)
    requires mid == before + [e]
    requires |after| >= |mid| && after == mid + after[|mid|..]
    ensures e in after[|before|..]
  {
    assert after[|before|..][0] == e;
  }

  lemma ListedLater(before: seq<ImportError>, mid: seq<ImportError>, after: seq<ImportError>, e: ImportError)
    requires |mid| >= |before|
    requires |after| >= |mid| && after == mid + after[|mid|..]
    requires e in after[|mid|..]
    ensures e in after[|before|..]
  {
    var k :| |mid| <= k < |after| && after[k] == e;
    assert after[|before|..][k - |before|] == e;
  }

  /** The upload's answer: counts and at most the first twenty errors. */
  datatype Summary = Summary(success: nat, failed: nat, errors: seq<ImportError>)

  datatype UploadError = FileRequired | InvalidJson

  const MaxReportedErrors := 20

  /** The items the streaming reader delivers, in file order, and whether the
      array then closes properly. A JSON `null` element is a null item. */
  datatype ItemStream = ItemStream(items: seq<Option<ImportItem>>, wellFormed: bool)

  /** `upload`: an absent or empty file is refused; otherwise the items are
      imported one by one. A malformed file is answered with `InvalidJson`
      after the items before the fault were imported; the returned state is
      the database afterwards in every case. */
  function Upload<S>(file: Option<seq<Utf8.Byte>>, read: seq<Utf8.Byte> -> ItemStream,
                     reg: Studios.Registry, state: S,
                     validate: SeriesRequest -> seq<StateValidator.Violation>,
                     create: (S, Series, Option<int>) -> Result<S, Option<string>>)
    : (r: (Result<Summary, UploadError>, S))
    ensures file.None? || file.value == [] ==> r == (Failure(FileRequired), state)
    ensures file.Some? && file.value != [] ==>
              (r.0 == Failure(InvalidJson) <==> !read(file.value).wellFormed)
    ensures r.0.Success? ==>
              && file.Some?
              && r.0.value.success + r.0.value.failed == |read(file.value).items|
              && |r.0.value.errors| == Numbers.Min(r.0.value.failed, MaxReportedErrors)
              && IndicesIn(r.0.value.errors, 1, |read(file.value).items| + 1)
    ensures file.Some? && file.value != [] ==>
              var q := ImportAll(reg, Progress(0, 0, [], state), read(file.value).items, 1, validate, create);
              && r.1 == q.state
              && (r.0.Success? ==> r.0.value == Summary(q.success, q.failed, FirstErrors(q.errors)))
  {
    if file.None? || file.value == [] then (Failure(FileRequired), state)
    else
      var stream := read(file.value);
      var q := ImportAll(reg, Progress(0, 0, [], state), stream.items, 1, validate, create);
      if !stream.wellFormed then (Failure(InvalidJson), q.state)
      else
        assert q.errors == q.errors[0..];
        var shown := FirstErrors(q.errors);
        IndicesPrefix(q.errors, |shown|, 1, |stream.items| + 1);
        (Success(Summary(q.success, q.failed, shown)), q.state)
  }

  /** The errors reported back: the first twenty at most. */
  function FirstErrors(errors: seq<ImportError>): (shown: seq<ImportError>)
    ensures |shown| == Numbers.Min(|errors|, MaxReportedErrors)
    ensures shown == errors[..|shown|]
  {
    if |errors| <= MaxReportedErrors then errors else errors[..MaxReportedErrors]
  }

  lemma IndicesPrefix(errors: seq<ImportError>, k: nat, from: nat, to: nat)
    requires k <= |errors| && IndicesIn(errors, from, to)
    ensures IndicesIn(errors[..k], from, to)
  {
  }

  /** An item refused outright makes the upload report a failure; while no
      more than twenty items fail, its error is listed under its 1-based
      position with the reason and details `ImportOne` gives it. */
  lemma RefusedItemReported<S>(file: seq<Utf8.Byte>, read: seq<Utf8.Byte> -> ItemStream,
                               reg: Studios.Registry, state: S,
                               validate: SeriesRequest -> seq<StateValidator.Violation>,
                               create: (S, Series, Option<int>) -> Result<S, Option<string>>, i: nat)
    requires file != [] && read(file).wellFormed
    requires i < |read(file).items| && RefusedOutright(reg, read(file).items[i], validate)
    ensures Upload(Some(file), read, reg, state, validate, create).0.Success?
    ensures Upload(Some(file), read, reg, state, validate, create).0.value.failed >= 1
    ensures var summary := Upload(Some(file), read, reg, state, validate, create).0.value;
            var o := ImportOne(reg, state, read(file).items[i], validate, create).0;
            summary.failed <= MaxReportedErrors ==> ImportError(i + 1, o.reason, o.details) in summary.errors
  {
    var p := Progress(0, 0, [], state);
    var items := read(file).items;
    RefusedItemListed(reg, p, items, 1, validate, create, i);
    var q := ImportAll(reg, p, items, 1, validate, create);
    assert q.errors[|p.errors|..] == q.errors;
    assert |q.errors| >= 1;
  }

  /** Refusing a malformed file does not undo anything: the database ends as
      it would after a well-formed file holding the same items. */
  lemma MalformedFileKeepsImports<S>(
    file: seq<Utf8.Byte>, read: seq<Utf8.Byte> -> ItemStream, read': seq<Utf8.Byte> -> ItemStream,
    reg: Studios.Registry, state: S,
    validate: SeriesRequest -> seq<StateValidator.Violation>,
    create: (S, Series, Option<int>) -> Result<S, Option<string>>)
    requires file != []
    requires !read(file).wellFormed
    requires read'(file) == ItemStream(read(file).items, true)
    ensures Upload(Some(file), read, reg, state, validate, create).0 == Failure(InvalidJson)
    ensures Upload(Some(file), read', reg, state, validate, create).0.Success?
    ensures Upload(Some(file), read, reg, state, validate, create).1
         == Upload(Some(file), read', reg, state, validate, create).1
  {
  }
}
