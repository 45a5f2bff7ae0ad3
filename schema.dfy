/**
 * The `EmployerGeo` data-frame model: a strict schema of five columns,
 * non-null `id` and `date`, nullable `match_type`, `block_geoid` and
 * `geom`, and the `correct_len_block` check on non-null geoids.
 */
module Schema {
  import opened Wrappers
  import opened Records
  import opened Normalize
  import opened Seqs

  /** The columns the schema declares. */
  const SchemaColumns: seq<string> := ["id", "date", "match_type", "block_geoid", "geom"]

  /** Why a frame was rejected. */
  datatype SchemaError =
    | ColumnNotInSchema(column: string)
    | ColumnMissing(column: string)
    | NullNotAllowed(column: string, row: nat)
    | CheckFailed(column: string, check: string, row: nat)

  /** `correct_len_block` on one cell; like every check, it is not applied to a null cell. */
  predicate GeoidLengthOk(row: GeoRow)
  {
    row.blockGeoid.Some? ==> |row.blockGeoid.value| == GeoidLength
  }

  /** Every field-level rule of the schema holds for `row`. */
  predicate RowConforms(row: GeoRow)
  {
    row.id.Some? && row.date.Some? && GeoidLengthOk(row)
  }

  /** Strict mode: no column outside the schema, and every schema column present. */
  predicate ColumnsConform(columns: seq<string>)
  {
    (forall c :: c in columns ==> c in SchemaColumns) && (forall c :: c in SchemaColumns ==> c in columns)
  }

  predicate Conforms(f: Frame)
  {
    ColumnsConform(f.columns) && forall i :: 0 <= i < |f.rows| ==> RowConforms(f.rows[i])
  }

  /** The error `e` names a real violation in `f`. */
  predicate Explains(f: Frame, e: SchemaError)
  {
    match e
    case ColumnNotInSchema(c) => c in f.columns && c !in SchemaColumns
    case ColumnMissing(c) => c in SchemaColumns && c !in f.columns
    case NullNotAllowed(c, i) =>
      i < |f.rows| && ((c == "id" && f.rows[i].id.None?) || (c == "date" && f.rows[i].date.None?))
    case CheckFailed(c, check, i) =>
      c == "block_geoid" && check == "correct_len_block" && i < |f.rows| && !GeoidLengthOk(f.rows[i])
  }

  /** Strict mode: the first column outside the schema, else the first schema column missing. */
  function CheckColumns(columns: seq<string>): (e: Option<SchemaError>)
    ensures e.None? <==> ColumnsConform(columns)
    ensures e.Some? ==> Explains(Frame(columns, []), e.value)
  {
    match FindFirst(columns, (c: string) => c !in SchemaColumns)
    case Some(i) => Some(ColumnNotInSchema(columns[i]))
    case None =>
      match FindFirst(SchemaColumns, (c: string) => c !in columns)
      case Some(i) => Some(ColumnMissing(SchemaColumns[i]))
      case None => None
  }

  /** Nullability of `id`, then of `date`, then `correct_len_block`, each at its first failing row. */
  function CheckRows(rows: seq<GeoRow>): (e: Option<SchemaError>)
    ensures e.None? <==> forall i :: 0 <= i < |rows| ==> RowConforms(rows[i])
    ensures e.Some? ==> Explains(Frame([], rows), e.value)
  {
    match FindFirst(rows, (row: GeoRow) => row.id.None?)
    case Some(i) => Some(NullNotAllowed("id", i))
    case None =>
      match FindFirst(rows, (row: GeoRow) => row.date.None?)
      case Some(i) => Some(NullNotAllowed("date", i))
      case None =>
        match FindFirst(rows, (row: GeoRow) => !GeoidLengthOk(row))
        case Some(i) => Some(CheckFailed("block_geoid", "correct_len_block", i))
        case None => None
  }

  /**
   * `EmployerGeo.validate`: the column set first, then each column's
   * nullability and checks in schema order, stopping at the first failure.
   * A frame that passes is returned as it came in, so one bad row or one
   * extra column rejects the whole frame.
   */
  function Validate(f: Frame): (r: Result<Frame, SchemaError>)
    ensures r.Success? <==> Conforms(f)
    ensures r.Success? ==> r.value == f
    ensures r.Failure? ==> Explains(f, r.error)
  {
    match CheckColumns(f.columns)
    case Some(e) => Failure(e)
    case None =>
      match CheckRows(f.rows)
      case Some(e) => Failure(e)
      case None => Success(f)
  }

  /**
   * A normalised frame is accepted exactly when every joined row has a
   * date and every present geoid was built from fragments that fit their
   * widths; unmatched rows, whose geoid is null, never cause a rejection.
   */
  lemma NormalizedFrameValid(ms: seq<Merged>)
    ensures Validate(NormalizeFrame(ms)).Success? <==>
      forall i :: 0 <= i < |ms| ==>
        ms[i].date.Some? && (BlockGeoid(ms[i].resp).Some? ==> FragmentsFit(ms[i].resp))
  {
    var f := NormalizeFrame(ms);
    assert ColumnsConform(f.columns);
    forall i | 0 <= i < |ms| && BlockGeoid(ms[i].resp).Some?
      ensures GeoidLengthOk(f.rows[i]) <==> FragmentsFit(ms[i].resp)
    {
      GeoidLengthExact(ms[i].resp);
    }
  }

  /** An address the geocoder could not match still passes, with a null geoid. */
  lemma UnmatchedRowConforms(m: Merged)
    requires m.date.Some?
    requires m.resp.statefp.None? || m.resp.countyfp.None? || m.resp.tract.None? || m.resp.block.None?
    ensures NormalizeRow(m).blockGeoid.None? && RowConforms(NormalizeRow(m))
  {
  }
}
