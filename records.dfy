/** The rows that flow through the geocoding run, from source candidate to validated output. */
module Records {
  import opened Wrappers

  /** A `datetime.date` edition value; only compared, never computed with. */
  type Date(==)

  /** A longitude or latitude as the geocoding service returns it; carried, never computed with. */
  type Coord(==)

  /** A source employer row still to be geocoded: key, address fields and its date. */
  datatype Candidate = Candidate(id: string, street: string, city: string, state: string, zip: string, date: Option<Date>)

  /** One record of a request to the batch geocoder: the candidate without its date. */
  datatype Request = Request(id: string, street: string, city: string, state: string, zip: string)

  /**
   * One row of the geocoder's answer. The four FIPS fragments are already
   * read as nullable non-negative integers; an unmatched address has them
   * (and the coordinates) null.
   */
  datatype Response = Response(
    id: string,
    matchtype: Option<string>,
    statefp: Option<nat>,
    countyfp: Option<nat>,
    tract: Option<nat>,
    block: Option<nat>,
    lon: Option<Coord>,
    lat: Option<Coord>)

  /** A response row joined back to the `date` of the chunk row it matched. */
  datatype Merged = Merged(resp: Response, date: Option<Date>)

  /** A point geometry, x first. */
  datatype Point = Point(x: Option<Coord>, y: Option<Coord>)

  /** One row of the `employers_geo` frame; every cell may be null until validated. */
  datatype GeoRow = GeoRow(
    id: Option<string>,
    date: Option<Date>,
    matchType: Option<string>,
    blockGeoid: Option<string>,
    geom: Option<Point>)

  /** A data frame: its column names and its rows. */
  datatype Frame = Frame(columns: seq<string>, rows: seq<GeoRow>)

  /** The columns of the output frame, in the order the run selects them. */
  const OutputColumns: seq<string> := ["id", "date", "match_type", "block_geoid", "geom"]
}
