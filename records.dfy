/** The rows of the tables the map script builds, with every column it reads or adds. */
module Records {
  import opened Wrappers

  /** An area in the boundary source's own units (square degrees); never negative. */
  type Area = r: real | r >= 0.0

  /** One connected polygon of a boundary; its shape is abstract, only its area is observed. */
  datatype Part = Part(shape: nat, area: Area)

  /** A polygon or multipolygon, seen as the sequence of its connected parts. */
  datatype Geometry = Geometry(parts: seq<Part>)

  /** A row of the removal-request table as read from the database. */
  datatype Request = Request(country: string, totalRequests: int)

  /** A request row once the `country_mapped` column has been added. */
  datatype MetricRow = MetricRow(country: string, totalRequests: int, countryMapped: string)

  /** A row of the boundary table reduced to the columns the merge uses (`NAME`, `geometry`). */
  datatype BoundaryRow = BoundaryRow(name: string, geometry: Geometry)

  /** A colour of the map: the i-th colour of the six-step palette, or the colour for 'zero'. */
  datatype Color = Shade(index: nat) | LightGrey

  /**
   * A row of the merged table. The request columns are missing (`None`) on a boundary row
   * that no request row matched; the three classification columns are missing until the
   * step that adds them has run.
   */
  datatype JoinedRow = JoinedRow(
    country: Option<string>,
    totalRequests: Option<int>,
    countryMapped: Option<string>,
    name: string,
    geometry: Geometry,
    requestsBin: Option<string>,
    plotCategory: Option<string>,
    color: Option<Color>)
}
