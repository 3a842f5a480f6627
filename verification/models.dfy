/** The entities of models/song.go, as values. */
module Models {
  import opened Wrappers

  /**
   * A calendar date. Every time.Time in this service is either parsed from the
   * layout YYYY-MM-DD or is Go's zero time, so the time of day and the zone are
   * always the same and only the calendar fields matter.
   */
  datatype Date = Date(year: int, month: int, day: int)

  /** Go's zero time.Time: 0001-01-01. */
  const ZERO_DATE := Date(1, 1, 1)

  /** Chronological order of dates: by year, then month, then day. */
  predicate Before(a: Date, b: Date)
  {
    || a.year < b.year
    || (a.year == b.year && a.month < b.month)
    || (a.year == b.year && a.month == b.month && a.day < b.day)
  }

  /**
   * models.Song as the handlers fill it in before handing it to the repository.
   * `verses` is a Go []string, which may be nil (None) or a list, possibly empty.
   * The id field is left out: AddSong never reads it.
   */
  datatype Song = Song(
    groupName: string,
    songTitle: string,
    releaseDate: Date,
    text: string,
    link: string,
    verses: Option<seq<string>>)

  /** models.GetSong: the search fields of a filtered query. */
  datatype SongFilter = SongFilter(
    groupName: string,
    songTitle: string,
    releaseDate: Date,
    text: string,
    link: string)

  /**
   * One row of the songs table. The id is assigned by the store. The verses
   * column holds the JSON text written by AddSong, or SQL NULL (None).
   */
  datatype Row = Row(
    id: nat,
    groupName: string,
    songTitle: string,
    releaseDate: Date,
    text: string,
    link: string,
    verses: Option<string>)
}
