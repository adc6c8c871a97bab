/** Tables read with a header row, column lookup, and the column contract
    every page checks before computing anything. */
module Sheet {
  import opened Base
  import opened Numbers

  /** A table read with a header row: column labels and text rows. */
  datatype Table = Table(header: seq<string>, rows: seq<seq<string>>)

  /** An empty field is what pandas reads as a missing value (NaN). */
  predicate IsNull(cell: string)
  {
    cell == ""
  }

  /** Python's `str()` of a cell: a missing value prints "nan". */
  function Str(cell: string): (r: string)
    ensures r == "nan" <==> IsNull(cell) || cell == "nan"
    ensures !IsNull(cell) ==> r == cell
  {
    if IsNull(cell) then "nan" else cell
  }

  /** The cell in column `j` of a row; a row shorter than the header reads as
      missing values at its end. */
  function CellAt(row: seq<string>, j: nat): string
  {
    if j < |row| then row[j] else ""
  }

  /** The first column carrying `name` (pandas renames later duplicates). */
  function ColumnIndex(header: seq<string>, name: string): (r: Option<nat>)
    ensures r.None? <==> name !in header
    ensures r.Some? ==> r.value < |header| && header[r.value] == name
    ensures r.Some? ==> forall k :: 0 <= k < r.value ==> header[k] != name
  {
    if |header| == 0 then None
    else if header[0] == name then Some(0)
    else match ColumnIndex(header[1..], name)
      case None => None
      case Some(k) => Some(k + 1)
  }

  /** The text of the named column in a row (missing when there is no such column). */
  function Get(header: seq<string>, row: seq<string>, name: string): string
  {
    match ColumnIndex(header, name)
    case None => ""
    case Some(j) => CellAt(row, j)
  }

  /** The error every page reports: the columns it expected and those it found. */
  datatype SchemaError = SchemaError(expected: seq<string>, found: seq<string>)

  /** `all(col in df.columns for col in expected_cols)`. */
  predicate HasColumns(header: seq<string>, expected: seq<string>)
  {
    forall c | c in expected :: c in header
  }

  /** The column contract: no error when every expected column is present,
      otherwise an error listing both the expected and the found columns. */
  function CheckColumns(header: seq<string>, expected: seq<string>): (r: Option<SchemaError>)
    ensures r.None? <==> forall c :: c in expected ==> c in header
    ensures r.Some? ==> r.value.expected == expected && r.value.found == header
  {
    if HasColumns(header, expected) then None else Some(SchemaError(expected, header))
  }

  /** The contract is a subset test: extra columns, in any position, never
      make a passing header fail. */
  lemma ExtraColumnsAccepted(header: seq<string>, before: seq<string>, after: seq<string>,
                             expected: seq<string>)
    requires CheckColumns(header, expected).None?
    ensures CheckColumns(before + header + after, expected).None?
  {
    forall c | c in expected
      ensures c in before + header + after
    {
      var k :| 0 <= k < |header| && header[k] == c;
      assert (before + header + after)[|before| + k] == c;
    }
  }

  /** One absent expected column is enough to fail. */
  lemma MissingColumnRejected(header: seq<string>, expected: seq<string>, c: string)
    requires c in expected && c !in header
    ensures CheckColumns(header, expected) == Some(SchemaError(expected, header))
  {
  }

  /** The canonical long-table columns. */
  const CanonicalColumns: seq<string> :=
    ["Date", "Serial", "OF", "Nom_Cote", "Mesure", "Nominal", "Tol\U{E9}rance_Min", "Tol\U{E9}rance_Max"]

  // ---------------------------------------------------------------------
  // Numeric columns
  // ---------------------------------------------------------------------

  /** Whether a cell converts with `float`: missing cells are NaN, others
      must be decimals (with a decimal comma allowed when `comma` holds, as
      after `.str.replace(",", ".")`). */
  predicate CellReads(cell: string, comma: bool)
  {
    IsNull(cell) || (if comma then ParseCommaDecimal(cell) else ParseDecimal(cell)).Some?
  }

  /** The number in a cell; missing cells give None. */
  function NumberIn(cell: string, comma: bool): (r: Option<real>)
    ensures CellReads(cell, comma) ==> (r.None? <==> IsNull(cell))
    ensures r.Some? && comma ==> ParseCommaDecimal(cell) == r
    ensures r.Some? && !comma ==> ParseDecimal(cell) == r
  {
    if IsNull(cell) then None
    else if comma then ParseCommaDecimal(cell)
    else ParseDecimal(cell)
  }

  /** Every row's cell in column `col` converts. */
  predicate RowsRead(header: seq<string>, rows: seq<seq<string>>, col: string, comma: bool)
    decreases |rows|
  {
    |rows| == 0
    || (RowsRead(header, rows[..|rows| - 1], col, comma)
        && CellReads(Get(header, rows[|rows| - 1], col), comma))
  }

  /** `RowsRead` says that each row's cell converts. */
  lemma {:induction false} RowsReadEach(header: seq<string>, rows: seq<seq<string>>, col: string, comma: bool)
    ensures RowsRead(header, rows, col, comma) <==>
      forall i :: 0 <= i < |rows| ==> CellReads(Get(header, rows[i], col), comma)
    decreases |rows|
  {
    if |rows| > 0 {
      var n := |rows| - 1;
      var pre := rows[..n];
      RowsReadEach(header, pre, col, comma);
      assert forall i :: 0 <= i < n ==> pre[i] == rows[i];
      assert RowsRead(header, rows, col, comma) <==>
        RowsRead(header, pre, col, comma) && CellReads(Get(header, rows[n], col), comma);
      if forall i :: 0 <= i < |rows| ==> CellReads(Get(header, rows[i], col), comma) {
        assert forall i :: 0 <= i < n ==> CellReads(Get(header, pre[i], col), comma);
      }
    }
  }

  /** A column still converts after a row whose cell converts is appended. */
  lemma RowsReadAppend(header: seq<string>, rows: seq<seq<string>>, row: seq<string>, col: string, comma: bool)
    ensures RowsRead(header, rows + [row], col, comma) <==>
      RowsRead(header, rows, col, comma) && CellReads(Get(header, row, col), comma)
  {
    assert (rows + [row])[..|rows|] == rows;
  }
}
