/** Conversions between the series entity and the API objects. */
module Mapper {
  import opened Wrappers
  import opened Model
  import opened Dto

  /** `toResponse` dereferences the studio, so a series without one fails. */
  datatype MapperError = MissingStudio

  /** `toResponse`: every field copied, the studio flattened into its response. */
  function ToResponse(s: Series): (r: Result<SeriesResponse, MapperError>)
    ensures r.Failure? <==> s.studio.None?
    ensures r.Success? ==>
              && r.value.id == s.id && r.value.title == s.title && r.value.genre == s.genre
              && r.value.seasons == s.seasons && r.value.rating == s.rating && r.value.year == s.year
              && r.value.finished == s.finished
              && r.value.studio.id == s.studio.value.id
              && r.value.studio.name == s.studio.value.name
              && r.value.studio.country == s.studio.value.country
  {
    match s.studio
    case None => Failure(MissingStudio)
    case Some(st) =>
      Success(SeriesResponse(s.id, s.title, s.genre, s.seasons, s.rating, s.year, s.finished,
                             StudioResponse(st.id, st.name, st.country)))
  }

  /** `toEntity`: an unsaved series without a studio; only `Boolean.TRUE`
      makes it finished. */
  function ToEntity(req: SeriesRequest): (s: Series)
    ensures s.id.None? && s.studio.None?
    ensures s.finished <==> req.finished == Some(true)
    ensures s.title == req.title && s.genre == req.genre
    ensures s.seasons == req.seasons && s.rating == req.rating && s.year == req.year
  {
    Series(None, req.title, req.genre, req.seasons, req.rating, req.year,
           req.finished == Some(true), None)
  }

  /** A request mapped to an entity, given its studio and saved, comes back in
      the response with its own fields; a null flag reads as not finished. */
  lemma RequestReachesResponse(req: SeriesRequest, id: int, studio: Studio)
    ensures var saved := ToEntity(req).(id := Some(id), studio := Some(studio));
            && ToResponse(saved).Success?
            && ToResponse(saved).value.title == req.title
            && ToResponse(saved).value.genre == req.genre
            && ToResponse(saved).value.seasons == req.seasons
            && ToResponse(saved).value.rating == req.rating
            && ToResponse(saved).value.year == req.year
            && ToResponse(saved).value.finished == (req.finished == Some(true))
            && ToResponse(saved).value.studio == StudioResponse(studio.id, studio.name, studio.country)
  {
  }
}
