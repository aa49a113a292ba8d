/** The catalog entities: a studio and a series record. Java's nullable fields
    are `Option`s; ratings are held in integer tenths (8.7 is 87). */
module Model {
  import opened Wrappers

  /** A studio entity: database id, name and country, each nullable in Java. */
  datatype Studio = Studio(id: Option<int>, name: Option<string>, country: Option<string>)

  /** A series entity. `id` is absent until persisted; `studio` is absent for
      records parsed from files and for entities built from requests. */
  datatype Series = Series(
    id: Option<int>,
    title: Option<string>,
    genre: Option<string>,
    seasons: int,
    rating: int,
    year: int,
    finished: bool,
    studio: Option<Studio>
  )
}

/** The older top-level record type: the same six fields, no id, no studio. */
module LegacyModel {
  import opened Wrappers
  import Model

  datatype LegacySeries = LegacySeries(
    title: Option<string>,
    genre: Option<string>,
    seasons: int,
    rating: int,
    year: int,
    finished: bool
  )

  /** The same record as a core series that was never persisted and has no studio. */
  function Widen(s: LegacySeries): (w: Model.Series)
    ensures w.id.None? && w.studio.None?
    ensures w.title == s.title && w.genre == s.genre && w.seasons == s.seasons
    ensures w.rating == s.rating && w.year == s.year && w.finished == s.finished
  {
    Model.Series(None, s.title, s.genre, s.seasons, s.rating, s.year, s.finished, None)
  }
}
