# Series catalog core, modelled in Dafny

This project models the core of a small Java catalog of TV series. The
catalog covers four areas:

- **Statistics**: `countByAttribute`, in the core and the older top-level
  version. It builds a frequency table of one attribute (title, genre,
  seasons, rating, year or finished). The table is ordered by count
  descending and then by key ignoring case.
- **List queries**: `SeriesService`, in both versions. It provides the
  filters, the rating order, top N, title search, the average rating and the
  longest-running series.
- **Loaders**: `SeriesLoader`, in both versions. It loads JSON files one by
  one, as a list, or from a folder through a fixed thread pool.
- **The API layer**:
  - report generation and download: `SeriesApiService.generateReport` and
    `downloadReport`, with the CSV writer `ReportCsvWriter` and the job store
    `ReportStore`;
  - the JSON import: `upload` and `toRequest`;
  - `StudioService`, with its names unique ignoring case;
  - the class-level state rule `SeriesStateValidator`;
  - the entity/DTO mapper `SeriesMapper`;
  - the derived fields of the HTML view model `SeriesViewModel`.

Modelling conventions:

- Java nulls are `Option`s and exceptions are `Result` failures.
- A rating is held in integer tenths, so 8.7 is `87`.
- Strings are `seq<char>`, and bytes are `Utf8.Byte`.
- Outside services are function parameters of the operations:
  - the repository query behind a report, the clock and the job-id generator;
  - the spreadsheet library and the JSON object mapper behind the Excel and JSON writers;
  - the streaming JSON reader and the bean validator;
  - the series repository's `create`;
  - the file system and the parser.
- The thread pool's life is recorded as a trace of events.

Modules, roughly one per source class:

| module | models |
|---|---|
| `Statistics`, `Frequency` | the core `StatisticsService` |
| `LegacyStatistics` | the top-level `StatisticsService` |
| `SeriesQueries` | the core `SeriesService` |
| `LegacyQueries` | the top-level `SeriesService` |
| `Loader` | the core `SeriesLoader` |
| `LegacyLoader` | the top-level `SeriesLoader` |
| `ReportCsv`, `Utf8` | `ReportCsvWriter` |
| `ReportStore` | `ReportStore` |
| `Timestamp`, `SeriesApi` | `SeriesApiService`, and the failure behaviour of `ReportExcelWriter` and `ReportJsonWriter` |
| `Studios` | `StudioService` |
| `StateValidator` | `SeriesStateValidator` |
| `Mapper` | `SeriesMapper` |
| `ViewModel` | `SeriesViewModel` |

`Seqs`, `Sorting`, `Text`, `Numbers` and `Wrappers` hold the library pieces
these modules share:

- `Stream.filter`;
- the stable sort of `Stream.sorted`;
- `trim`, `isBlank`, `toLowerCase`, `split` and `compareToIgnoreCase`
  (`Text.Split` keeps the trailing empty parts that `split` drops; every
  caller discards empty parts, so the results agree);
- integer and one-decimal number formatting;
- `Option` and `Result`.

Each version pair has an agreement lemma:

- `LegacyStatistics.AgreesWithCore`;
- the `*Agrees` lemmas of `LegacyQueries`;
- `LegacyLoader.LoadersAgree`.

Each states that the older class gives the core class's answer on the same
records. For the folder load, `LegacyLoader.LoadersAgree` also states where
the two differ.

The older loader's `load`, `loadAll` and `parseOneFile` are the core's code
line for line. `Loader.Load`, `Loader.LoadAll` and `Loader.ParseOneFile`
model them as well.

Behaviour that follows the code where a reader might expect otherwise:

- `countByAttribute` returns an empty table for a null list before it looks
  at the attribute.
- It rejects an unsupported attribute only when some non-null record reaches
  the key switch. On a list of nulls it returns an empty table.
- The core folder load creates its pool outside its `try`. A non-positive
  pool size therefore escapes unwrapped. The older loader wraps it, or never
  reaches it when the listing fails.
- `upload` answers a malformed file with "Invalid JSON file". The items read
  before the fault stay imported, and there is no rollback.
- `findByTitleContains` stops at the first match. A null title therefore
  fails the search only when it comes before every match.

## Model

| member | source | states |
|---|---|---|
| Statistics.CountByAttribute | src/main/java/org/example/series/core/service/StatisticsService.java:33-80 | A null list gives an empty table. A null or blank attribute is rejected. An unsupported attribute is rejected, with its normalised name, exactly when some record is non-null; otherwise the table is empty. For a supported attribute the result is the frequency table of the keys of the non-null records, and its counts add up to the number of keys. |
| Frequency.Table | src/main/java/org/example/series/core/service/StatisticsService.java:50-79 | The table has one entry per distinct key, each holding the key's number of occurrences (at least one). The counts sum to the number of keys. Entries are ordered by count descending, then by key ascending ignoring case. |
| Frequency.Tally | src/main/java/org/example/series/core/service/StatisticsService.java:50-63 | The counting loop gives unique keys, exactly the keys that occur, each with its multiplicity. The counts sum to the number of keys counted. |
| Frequency.EntryLeqIsTotalPreorder | src/main/java/org/example/series/core/service/StatisticsService.java:69-73 | The comparator (count descending, then `compareToIgnoreCase`) is total and transitive, so the sort is well defined. |
| Frequency.SortKeepsSumAndUnique | src/main/java/org/example/series/core/service/StatisticsService.java:68-79 | Sorting the table keeps its keys unique and its total count. |
| Frequency.SortedEntries | src/main/java/org/example/series/core/service/StatisticsService.java:68-73 | A table sorted by the comparator has counts non-increasing. Among equal counts, the keys are ordered ignoring case. |
| Statistics.AttributeNamed | src/main/java/org/example/series/core/service/StatisticsService.java:90-114 | The switch selects the attribute whose name is the normalised string, and only that one. A name no attribute has selects none. |
| Statistics.ExtractKeys | src/main/java/org/example/series/core/service/StatisticsService.java:88-116 | Genre gives one or more keys; every other attribute gives exactly one. Every scalar key parses back to the field it came from: seasons and year as integers, the rating as one decimal, the flag as a boolean. |
| Statistics.Safe | src/main/java/org/example/series/core/service/StatisticsService.java:144-147 | A null or blank value becomes "unknown". Any other value becomes its trimmed core: the value is that core surrounded by characters up to U+0020 only. |
| Statistics.GenreParts | src/main/java/org/example/series/core/service/StatisticsService.java:129-135 | The kept parts are exactly the trimmed parts that are not empty, in their order. |
| Statistics.SplitGenres | src/main/java/org/example/series/core/service/StatisticsService.java:124-138 | A null or blank genre gives exactly `["unknown"]`. Any other genre gives its comma-separated parts, trimmed, with empty ones dropped, or `["unknown"]` when none is left. Every key is trimmed, non-empty and free of commas. |
| Statistics.SpacedGenres | src/main/java/org/example/series/core/service/StatisticsService.java:124-138 | `"Drama, Sci-Fi"` gives the keys `Drama` and `Sci-Fi`. |
| Statistics.CommasOnly | src/main/java/org/example/series/core/service/StatisticsService.java:124-138 | A genre of commas alone counts once as `unknown`. |
| Statistics.Normalise | src/main/java/org/example/series/core/service/StatisticsService.java:41-47 | The normalised attribute is lower case and trimmed. It equals, ignoring case, the attribute with its surrounding characters up to U+0020 removed. |
| Text.TrimUnique | src/main/java/org/example/series/core/service/StatisticsService.java:146 | A string has exactly one trimmed core, and `trim` returns it. |
| Statistics.GenresRoundTrip | src/main/java/org/example/series/core/service/StatisticsService.java:124-138 | Joining trimmed, non-empty, comma-free genres with commas and splitting them again gives back the same genres, in order. |
| Statistics.NullRecordsSkipped | src/main/java/org/example/series/core/service/StatisticsService.java:52-54 | A null record contributes no key, wherever it sits in the list. |
| Statistics.KeysAppend | src/main/java/org/example/series/core/service/StatisticsService.java:52-63 | The keys of two lists in a row are the keys of the first followed by the keys of the second. |
| Statistics.KeysEmpty | src/main/java/org/example/series/core/service/StatisticsService.java:52-63 | No key is extracted exactly when every record is null. |
| LegacyStatistics.CountByAttribute | src/main/java/org/example/series/StatisticsService.java:14-44 | The same error cases as the core, in the same order. Otherwise the result is the frequency table of the keys of the non-null records. |
| LegacyStatistics.ExtractKeys | src/main/java/org/example/series/StatisticsService.java:46-59 | The same key shapes as the core switch, and every scalar key parses back to its field. |
| LegacyStatistics.KeysAgree | src/main/java/org/example/series/StatisticsService.java:46-78 | The older key extraction gives the core's keys on the same records seen as core series. |
| LegacyStatistics.AgreesWithCore | src/main/java/org/example/series/StatisticsService.java:14-78 | The older `countByAttribute` gives the core's answer, errors included, on the same records. |
| Seqs.FilterSpec | src/main/java/org/example/series/core/service/SeriesService.java:27-31 | `Stream.filter` keeps an ordered subsequence. It holds every element satisfying the test, with its multiplicity, and nothing else. |
| Sorting.SortSpec | src/main/java/org/example/series/core/service/SeriesService.java:52-56 | `Stream.sorted` permutes its input, orders it under a total preorder, and keeps every group of tied elements in input order. |
| SeriesQueries.FilterByRating | src/main/java/org/example/series/core/service/SeriesService.java:27-31 | The result holds exactly the records rated at least the threshold, with their multiplicities, in input order. |
| SeriesQueries.FilterByFinished | src/main/java/org/example/series/core/service/SeriesService.java:40-44 | The result holds exactly the records with the given flag, with their multiplicities, in input order. |
| SeriesQueries.FinishedPartition | src/main/java/org/example/series/core/service/SeriesService.java:40-44 | The finished and the ongoing records together make up the whole list. |
| SeriesQueries.SortByRatingDesc | src/main/java/org/example/series/core/service/SeriesService.java:52-56 | The result is a permutation of the list with the highest rating first. Records of equal rating keep their input order. |
| SeriesQueries.TopNByRating | src/main/java/org/example/series/core/service/SeriesService.java:65-69 | A negative N is refused. Otherwise the result holds min(N, size) records from the list, ordered by rating descending. Records of equal rating appear in their input order: for each rating, the records kept are the first ones of the list. |
| Sorting.TiedWithPrefix | src/main/java/org/example/series/core/service/SeriesService.java:65-69 | Cutting a sorted list short keeps, among each group of equal elements, a prefix of that group. |
| SeriesQueries.TopNAreBest | src/main/java/org/example/series/core/service/SeriesService.java:65-69 | No record left out of the top N is rated above a record in it. |
| SeriesQueries.FindByTitleContains | src/main/java/org/example/series/core/service/SeriesService.java:78-83 | A null query fails. Otherwise the result is empty exactly when every record has a title and none matches. A found record is the first whose lower-cased title contains the lower-cased query. A failure names a null title that comes before every match. |
| SeriesQueries.FindIffMatch | src/main/java/org/example/series/core/service/SeriesService.java:78-83 | A matching record preceded only by titled, non-matching records is the one found. |
| SeriesQueries.AverageRating | src/main/java/org/example/series/core/service/SeriesService.java:91-96 | The average is 0 for an empty list, and otherwise the sum of the ratings divided by their number. |
| SeriesQueries.AverageWithinRange | src/main/java/org/example/series/core/service/SeriesService.java:91-96 | The average of a non-empty list lies between its lowest and highest rating. |
| SeriesQueries.MaxSeasonsIndex | src/main/java/org/example/series/core/service/SeriesService.java:104-107 | `reduce` with `maxBy` ends on a record with the most seasons. Every earlier record has strictly fewer, so ties go to the earliest. |
| SeriesQueries.MaxSeasons | src/main/java/org/example/series/core/service/SeriesService.java:104-107 | The result is empty exactly for an empty list. Otherwise it is the first record with the most seasons. |
| LegacyQueries.FiltersAndSortAgree | src/main/java/org/example/series/SeriesService.java:10-28 | The older filters and sort give the core's records, in the same order. |
| LegacyQueries.TopNAgrees | src/main/java/org/example/series/SeriesService.java:31-35 | The older top N gives the core's records and refuses the same N. |
| LegacyQueries.FindAgrees | src/main/java/org/example/series/SeriesService.java:38-43 | The older search fails with the core's error or finds the core's record. |
| LegacyQueries.AverageAgrees | src/main/java/org/example/series/SeriesService.java:46-51 | The older average equals the core's. |
| LegacyQueries.MaxSeasonsAgrees | src/main/java/org/example/series/SeriesService.java:54-57 | The older `maxSeasons` picks the same record as the core. |
| Loader.Open | src/main/java/org/example/series/core/loader/SeriesLoader.java:38-44 | Opening succeeds exactly when the file reads and parses, and then yields the parsed record. Otherwise it fails with an I/O or syntax error. |
| Loader.Load | src/main/java/org/example/series/core/loader/SeriesLoader.java:38-44 | `load` gives the file's record. A failure is wrapped in a runtime error naming the file and carrying the cause. |
| Loader.LoadAll | src/main/java/org/example/series/core/loader/SeriesLoader.java:52-58 | Loading succeeds exactly when every file loads, and then gives every record in path order. Otherwise the error is the first failing file's. |
| Loader.JsonFiles | src/main/java/org/example/series/core/loader/SeriesLoader.java:86-88 | The listing's filter keeps, in directory order, exactly the entries ending in `.json`. |
| Loader.ParseOneFile | src/main/java/org/example/series/core/loader/SeriesLoader.java:117-123 | A task gives the file's record. A failure is wrapped with "Failed to parse file" and the file name. |
| Loader.Collect | src/main/java/org/example/series/core/loader/SeriesLoader.java:90-100 | Collecting succeeds exactly when every file opens, and then gives the records in submission order. Otherwise the error is the first failed task's, wrapped as `get` wraps it. |
| Loader.LoadFromFolder | src/main/java/org/example/series/core/loader/SeriesLoader.java:77-109 | A non-positive pool size escapes unwrapped, with no pool made. Otherwise the pool is created first and shut down last, whatever happens. Every failure carries the folder message, and a folder that does not list fails with an I/O cause. |
| Loader.LoadFromFolderDefault | src/main/java/org/example/series/core/loader/SeriesLoader.java:66-68 | The default load starts a pool of four threads, and succeeds only if the folder lists. |
| Loader.FolderMatchesLoadAll | src/main/java/org/example/series/core/loader/SeriesLoader.java:77-109 | The parallel folder load gives the records that loading the folder's `.json` files one after the other gives, in listing order. The two fail together. |
| Loader.FolderLoadSucceedsIff | src/main/java/org/example/series/core/loader/SeriesLoader.java:77-109 | A folder load succeeds exactly when the folder lists and every `.json` entry reads and parses. |
| LegacyLoader.LoadFromFolder | src/main/java/org/example/series/SeriesLoader.java:39-62 | A folder that does not list fails before any pool exists. A bad pool size is wrapped like every other failure. Every pool created is closed later. Every failure carries the folder message. |
| LegacyLoader.LoadFromFolderDefault | src/main/java/org/example/series/SeriesLoader.java:34-36 | The default load uses four threads once the folder lists. |
| LegacyLoader.LoadersAgree | src/main/java/org/example/series/SeriesLoader.java:39-62 | With a positive pool size, both loaders give the same outcome. With a non-positive one, the core's error is unwrapped and the older one's is wrapped. |
| ReportCsv.Write | src/main/java/org/example/series/core/export/ReportCsvWriter.java:35-56 | Writing succeeds exactly when every record has a studio, and the text then starts with the header. An empty list gives the header alone. A failure names the first record without a studio. |
| ReportCsv.FirstWithoutStudio | src/main/java/org/example/series/core/export/ReportCsvWriter.java:43-50 | The failing index is that of a studio-less record with every earlier record having a studio. |
| ReportCsv.WriteReadRoundTrip | src/main/java/org/example/series/core/export/ReportCsvWriter.java:35-56 | Reading a written report gives back every record's title, numbers, flag and studio name, in input order. A null text reads back as empty. |
| ReportCsv.ReadRowOfRow | src/main/java/org/example/series/core/export/ReportCsvWriter.java:45-51 | One written row reads back as its record, with the rest of the text left over. |
| ReportCsv.LineCount | src/main/java/org/example/series/core/export/ReportCsvWriter.java:40-52 | Without line breaks in the text fields, the report has one line per record plus the header line. |
| ReportCsv.HeaderIsOneLine | src/main/java/org/example/series/core/export/ReportCsvWriter.java:40 | The header is exactly one line. |
| ReportCsv.Escape | src/main/java/org/example/series/core/export/ReportCsvWriter.java:67-72 | Null becomes the empty string. Otherwise un-doubling the quotes gives the value back, the text grows by one character per quote, and every other character occurs exactly when it occurs in the value. |
| ReportCsv.UnescapeEscape | src/main/java/org/example/series/core/export/ReportCsvWriter.java:67-72 | Un-doubling the quotes gives back the original text. |
| ReportCsv.EscapeLength | src/main/java/org/example/series/core/export/ReportCsvWriter.java:67-72 | Escaping adds exactly one character per quote. |
| ReportCsv.EscapeKeepsOthers | src/main/java/org/example/series/core/export/ReportCsvWriter.java:67-72 | Any character other than a quote occurs in the escaped text exactly when it occurs in the original. |
| Utf8.DecodeEncode | src/main/java/org/example/series/core/export/ReportCsvWriter.java:55 | Decoding the UTF-8 bytes of a text gives back the text. |
| Utf8.EncodeChar | src/main/java/org/example/series/core/export/ReportCsvWriter.java:55 | A character takes one to four bytes, and exactly one byte, equal to its code, when it is ASCII. |
| ReportStore.Get | src/main/java/org/example/series/core/export/ReportStore.java:24-26 | The result is null exactly for an unknown job id, and otherwise the stored report. |
| ReportStore.Put | src/main/java/org/example/series/core/export/ReportStore.java:20-22 | The report is then found under its job id, and every other job keeps what it had. |
| ReportStore.PutOverwrites | src/main/java/org/example/series/core/export/ReportStore.java:20-22 | A second put under the same job id replaces the first. |
| ReportStore.PutsCommute | src/main/java/org/example/series/core/export/ReportStore.java:20-22 | Puts under different job ids can be made in either order. |
| Timestamp.Stamp | src/main/java/org/example/series/api/service/SeriesApiService.java:136-137 | The `yyyyMMdd-HHmmss` stamp is fifteen characters: a dash in position 8 and digits everywhere else. |
| Timestamp.StampRoundTrip | src/main/java/org/example/series/api/service/SeriesApiService.java:136-137 | Every date and time field can be read back from the stamp. |
| Timestamp.StampInjective | src/main/java/org/example/series/api/service/SeriesApiService.java:136-137 | Two readings that differ in any field give different stamps. |
| SeriesApi.NormaliseFormat | src/main/java/org/example/series/api/service/SeriesApiService.java:122-124 | A null or blank format is `csv`. Any other format is its own lower-case form, equal to it ignoring case. |
| SeriesApi.SwitchesAgree | src/main/java/org/example/series/api/service/SeriesApiService.java:143-159 | The writer, extension and content-type switches pick matching branches for every format. |
| SeriesApi.FormatIgnoresCase | src/main/java/org/example/series/api/service/SeriesApiService.java:122-147 | Excel is chosen exactly for `xlsx` and JSON exactly for `json`, ignoring case. Every other format, null or blank included, gives CSV. |
| SeriesApi.ExcelWrite | src/main/java/org/example/series/core/export/ReportExcelWriter.java:43-87 | The spreadsheet is produced exactly when every record has a studio and the spreadsheet library succeeds. Any failure is "Failed to write Excel report". |
| SeriesApi.JsonWrite | src/main/java/org/example/series/core/export/ReportJsonWriter.java:69-76 | The JSON bytes are the mapper's output. Any failure is "Failed to write JSON report". |
| SeriesApi.StudioLessRecordFailsTabularReports | src/main/java/org/example/series/core/export/ReportExcelWriter.java:62-71 | A record without a studio fails both the spreadsheet and the CSV report, the CSV one at that record or earlier. |
| SeriesApi.Render | src/main/java/org/example/series/api/service/SeriesApiService.java:143-147 | Rendering fails exactly when the chosen writer fails. The Excel writer fails at a record without a studio or when the library fails. The JSON writer fails when the mapper fails. The CSV writer fails at a record without a studio. The CSV bytes decode to the CSV writer's text. |
| SeriesApi.ReportName | src/main/java/org/example/series/api/service/SeriesApiService.java:136-153 | The file name is `series-report-`, then the fifteen-character stamp of the clock reading, then the format's extension. |
| SeriesApi.ReportNameCarriesClock | src/main/java/org/example/series/api/service/SeriesApiService.java:136-137 | The clock reading parses back out of the name, so reports generated at different times get different names. |
| SeriesApi.GenerateReport | src/main/java/org/example/series/api/service/SeriesApiService.java:120-187 | Generation fails, with the writer's error, exactly when the chosen writer fails. A synchronous request answers with the attachment, its file name and its content type, and leaves the store alone. An asynchronous request answers with the job id and download URL, and adds only that job to the store. |
| SeriesApi.DownloadReport | src/main/java/org/example/series/api/service/SeriesApiService.java:189-199 | An unknown job gives 404. Otherwise the answer is the stored bytes, with the stored file name and content type. |
| SeriesApi.AsyncDownloadMatchesSync | src/main/java/org/example/series/api/service/SeriesApiService.java:140-199 | Downloading an asynchronous job gives exactly the synchronous answer to the same request, and the two fail together. |
| SeriesApi.OtherJobsUnaffected | src/main/java/org/example/series/api/service/SeriesApiService.java:161 | Generating one job does not change what any other job id downloads. |
| SeriesApi.ToRequest | src/main/java/org/example/series/api/service/SeriesApiService.java:276-293 | A null item is "Empty item". A missing or blank studio name is "Studio name is required". An unknown studio is "Studio not found". Otherwise the request carries the item's fields, with null numbers read as 0, and the id of a studio whose name matches ignoring case. |
| SeriesApi.RegisteredStudioResolves | src/main/java/org/example/series/api/service/SeriesApiService.java:282 | An item whose studio name exactly one studio holds, ignoring case, resolves to that studio's id. |
| SeriesApi.ViolationLines | src/main/java/org/example/series/api/service/SeriesApiService.java:242-244 | Each violation becomes one `path: message` line, in order. |
| SeriesApi.ImportOne | src/main/java/org/example/series/api/service/SeriesApiService.java:231-259 | An item is imported exactly when it converts, validates and is created, and the database is then the one the create returns. A validation failure reports the violation lines. A conversion failure reports its message, or `error` when it has none, or the non-unique-result failure. A failed create reports its message or `error`. A rejected item leaves the database unchanged. |
| SeriesApi.Step | src/main/java/org/example/series/api/service/SeriesApiService.java:229-259 | An item `ImportOne` imports adds one success and takes its new database. An item it rejects adds one failure and appends one error carrying the item's index and `ImportOne`'s reason and details; the database stays as it was. Earlier errors are untouched. |
| SeriesApi.ImportAll | src/main/java/org/example/series/api/service/SeriesApiService.java:228-260 | Every item is counted once, as a success or a failure. One error is recorded per failure, with strictly increasing indices inside the item range. |
| SeriesApi.RefusedOutrightIgnoresState | src/main/java/org/example/series/api/service/SeriesApiService.java:231-250 | An item that does not convert or does not validate is rejected, in the same way whatever the database holds. |
| SeriesApi.RefusedItemListed | src/main/java/org/example/series/api/service/SeriesApiService.java:228-260 | An item that does not convert or does not validate is listed among the errors under its own position, with `ImportOne`'s reason and details. |
| SeriesApi.CleanItemsAllImported | src/main/java/org/example/series/api/service/SeriesApiService.java:228-260 | When every item converts, validates and is created, nothing fails and every item counts as a success. |
| SeriesApi.Upload | src/main/java/org/example/series/api/service/SeriesApiService.java:213-274 | A missing or empty file is refused. A malformed file gives "Invalid JSON" exactly when the stream is malformed. Otherwise the database and the summary are those of importing the items in order: every item is counted, and the first min(failed, 20) errors are listed with 1-based indices. |
| SeriesApi.RefusedItemReported | src/main/java/org/example/series/api/service/SeriesApiService.java:213-274 | An item that does not convert or does not validate makes a well-formed upload report at least one failure. While at most twenty items fail, its error is listed under its 1-based position with its reason and details. |
| SeriesApi.FirstErrors | src/main/java/org/example/series/api/service/SeriesApiService.java:272 | At most twenty errors are kept, and they are the first ones. |
| SeriesApi.MalformedFileKeepsImports | src/main/java/org/example/series/api/service/SeriesApiService.java:222-266 | After a malformed file, the database is what a well-formed file with the same items leaves: the imports before the fault are not undone. |
| Studios.FindByNameIgnoreCase | src/main/java/org/example/series/core/service/StudioService.java:30-33 | The lookup finds no match exactly when no studio holds the name ignoring case. It finds one match exactly when one studio does, and then that studio. |
| Studios.FindByName | src/main/java/org/example/series/core/service/StudioService.java:30-33 | `findByName` succeeds exactly when one studio matches, and returns a studio whose name equals the query ignoring case. An unheld name is "Studio not found". |
| Studios.UniqueLookup | src/main/java/org/example/series/core/service/StudioService.java:30-33 | Under unique names, a lookup never meets two studios. |
| Studios.Create | src/main/java/org/example/series/core/service/StudioService.java:35-44 | Creation is a conflict exactly when a studio holds the name ignoring case. Otherwise exactly one studio is added under the new id, and the others are unchanged. |
| Studios.Update | src/main/java/org/example/series/core/service/StudioService.java:46-62 | An unknown id is not found. When exactly one other studio holds the name, the update is a conflict, "Studio with this name already exists". When several do, the lookup fails as ambiguous. A conflict means another studio holds the name. When no other studio holds the name, the update succeeds and replaces only that studio's name and country. |
| Studios.Delete | src/main/java/org/example/series/core/service/StudioService.java:64-69 | Deleting fails exactly for an unknown id. Otherwise exactly that id is removed, and the others are unchanged. |
| Studios.CreateKeepsNamesUnique | src/main/java/org/example/series/core/service/StudioService.java:35-44 | Creating keeps names unique ignoring case. |
| Studios.UpdateKeepsNamesUnique | src/main/java/org/example/series/core/service/StudioService.java:46-62 | Updating keeps names unique ignoring case. |
| Studios.DeleteKeepsNamesUnique | src/main/java/org/example/series/core/service/StudioService.java:64-69 | Deleting keeps names unique ignoring case. |
| Studios.RenameOwnNameInOtherCase | src/main/java/org/example/series/core/service/StudioService.java:46-62 | A studio may be renamed to its own name in another case. |
| StateValidator.Violations | src/main/java/org/example/series/api/validation/SeriesStateValidator.java:15-42 | There is at most one violation. There is none exactly when the request is null or its year is allowed for its flag. A finished series is reported on `year` with "Finished series cannot be in the future"; an ongoing one on `finished` with "Ongoing series cannot start before 1950". |
| StateValidator.IsValid | src/main/java/org/example/series/api/validation/SeriesStateValidator.java:15-42 | A request is valid exactly when it is null, its flag is null, a finished series is not after the current year, or an ongoing series starts in 1950 or later. Invalid means some violation is reported. |
| StateValidator.BoundaryYears | src/main/java/org/example/series/api/validation/SeriesStateValidator.java:26-39 | Both bounds are inclusive: finished this year and ongoing from 1950 are valid, one year beyond is not. A null flag allows any year. |
| ViewModel.StatusLabel | src/main/java/org/example/series/web/viewmodel/SeriesViewModel.java:77-79 | The label is "Finished" exactly for a finished series and "Ongoing" exactly otherwise. |
| ViewModel.Stars | src/main/java/org/example/series/web/viewmodel/SeriesViewModel.java:86-90 | The number of stars is the nearest whole number to half the rating, with halves rounded up. |
| ViewModel.StarsUnique | src/main/java/org/example/series/web/viewmodel/SeriesViewModel.java:86-90 | That nearest whole number is unique. |
| ViewModel.RatingStars | src/main/java/org/example/series/web/viewmodel/SeriesViewModel.java:86-90 | The rendering is max(0, stars) filled stars followed by max(0, 5 − stars) empty ones. |
| ViewModel.FiveSymbols | src/main/java/org/example/series/web/viewmodel/SeriesViewModel.java:86-90 | A rating from 0 to 10 renders as exactly five symbols and at most five filled stars. |
| ViewModel.EightPointSix | src/main/java/org/example/series/web/viewmodel/SeriesViewModel.java:86-90 | 8.6 renders as four filled stars and one empty one. |
| Mapper.ToResponse | src/main/java/org/example/series/api/mapper/SeriesMapper.java:14-34 | A series without a studio fails. Otherwise every field is copied and the studio is flattened into its response. |
| Mapper.ToEntity | src/main/java/org/example/series/api/mapper/SeriesMapper.java:36-50 | The result is an unsaved series without a studio, carrying the request's fields. It is finished exactly when the flag is true. |
| Mapper.RequestReachesResponse | src/main/java/org/example/series/api/mapper/SeriesMapper.java:14-50 | A request mapped to an entity, saved with a studio and mapped back, answers with its own fields and that studio. A null flag reads as not finished. |
| Numbers.FormatTenthsRoundTrip | src/main/java/org/example/series/core/service/StatisticsService.java:102 | The one-decimal rendering of a rating parses back to the same rating. |
| Numbers.IntToStringRoundTrip | src/main/java/org/example/series/core/service/StatisticsService.java:98 | `String.valueOf` of an integer parses back to the integer. |

## Left out

- Floating point is not modelled:
  - A `double` rating is an integer number of tenths.
  - The `minRating` threshold is a `real`.
  - `SeriesQueries.AverageRating` is the exact mean; the rounding of a `double` sum is not modelled.
  - `ViewModel.Stars` is exact: `Math.round(rating / 2.0)` is computed on tenths.
- ReportCsv.Write: the rating the CSV writer appends with `Double.toString` is modelled as plain digits with one decimal. `Double.toString` switches to exponent notation from 10^7 up, and that case is left out. The `%.1f` statistics key never switches notation, so Numbers.FormatTenths and Statistics.ExtractKeys are not affected.
- Text.Lower and Text.EqualsIgnoreCase fold ASCII letters only. Java's Unicode case mapping is not modelled.
- HashMap iteration order is left unspecified in Java. The model counts in first-occurrence order, and every contract holds for any order. Keys equal ignoring case may appear in either order.
- Studios.FindByName, for a name that several studios hold, ends in the repository's non-unique-result exception. Its text is not modelled: the failure is `Ambiguous`, reported as `NonUniqueResult`. Unique names rule this case out.
- Parameters instead of models:
  - the spreadsheet library's building and serialising of the sheet, and the JSON object mapper, each of which may fail;
  - the repository search behind a report and the series repository's `create`;
  - the bean validator (only `SeriesStateValidator` is modelled);
  - Gson's parsing and its streaming reader;
  - the file system and `Path` handling;
  - `LocalDateTime.now`, `Year.now` and `UUID.randomUUID`.
- SeriesApi.ReportName requires a clock reading whose year has at most four digits.
- Concurrency is modelled as two things only:
  - the order in which the pool's futures are collected;
  - a trace of pool and stream events.

  Parallel execution, interruption and the pool's waiting are not modelled.
- Operations of `SeriesApiService` other than the report, download and import flows are not part of this model:
  - the CRUD pass-throughs `getAll`, `getById`, `update` and `delete`;
  - `search`.

  `create` appears only as the repository parameter.
- Exception messages other than those the model states are not modelled. This includes the texts of the statistics errors and the loader's I/O causes.
- SeriesQueries.FilterByRating, SortByRatingDesc and the other list queries take a list without null elements. A null element would raise `NullPointerException` in Java, and that path is not modelled.
- LegacyQueries: the older queries carry only the light contracts their agreement lemmas need. Their full behaviour follows from the `*Agrees` lemmas together with the core contracts.
