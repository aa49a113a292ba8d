/** The API's transfer objects: the create/update request, the responses, the
    report list request and the items of an import file. Boxed Java fields
    (`Boolean`, `Integer`, `Double`, `Long`) are `Option`s. */
module Dto {
  import opened Wrappers

  /** `SeriesRequest`; its bean-validation annotations are not modelled. */
  datatype SeriesRequest = SeriesRequest(
    title: Option<string>,
    genre: Option<string>,
    seasons: int,
    rating: int,
    year: int,
    finished: Option<bool>,
    studioId: Option<int>
  )

  datatype StudioResponse = StudioResponse(id: Option<int>, name: Option<string>, country: Option<string>)

  datatype SeriesResponse = SeriesResponse(
    id: Option<int>,
    title: Option<string>,
    genre: Option<string>,
    seasons: int,
    rating: int,
    year: int,
    finished: bool,
    studio: StudioResponse
  )

  /** The report part of `SeriesListRequest`: the filter fields go to the
      repository query, which is a parameter of the report operations. */
  datatype ListRequest = ListRequest(format: Option<string>, async: Option<bool>)

  datatype StudioImport = StudioImport(name: Option<string>, country: Option<string>)

  /** `SeriesImportItem`, one element of an uploaded JSON array. */
  datatype ImportItem = ImportItem(
    title: Option<string>,
    genre: Option<string>,
    seasons: Option<int>,
    rating: Option<int>,
    year: Option<int>,
    finished: Option<bool>,
    studio: Option<StudioImport>
  )
}
