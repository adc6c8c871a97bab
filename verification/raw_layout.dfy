/** The instrument's raw export: a grid whose first rows describe the
    dimensions (names, minimum, nominal, maximum) and whose rows from the
    tenth on hold one part each. Both the pasted-text cleaner and the Excel
    cleaner turn it into one long record per (part, dimension). */
module RawLayout {
  import opened Base
  import opened Sheet
  import opened Numbers

  /** A grid read without a header row; row 0 fixes the width, shorter rows
      read as missing values at their end. */
  type Grid = seq<seq<string>>

  const DataRow: nat := 10
  const DataCol: nat := 7
  const NamesRow: nat := 2
  const MinRow: nat := 5
  const AimRow: nat := 6
  const MaxRow: nat := 7
  const DateCol: nat := 0
  const SerialCol: nat := 1
  const PlantCol: nat := 5
  const OfCol: nat := 6

  function Width(g: Grid): nat
  {
    if |g| == 0 then 0 else |g[0]|
  }

  function Cell(g: Grid, i: nat, j: nat): string
    requires i < |g|
  {
    CellAt(g[i], j)
  }

  // ---------------------------------------------------------------------
  // Layout detection
  // ---------------------------------------------------------------------

  /** A column label of a frame: read without a header, labels are positions. */
  datatype Label = Position(p: nat) | Name(n: string)

  function ColumnLabels(g: Grid): seq<Label>
  {
    seq(Width(g), j requires 0 <= j < Width(g) => Position(j))
  }

  const Sentinel: string := "FCollAvg"

  /** The cleaner's test for the raw layout: more than 12 rows, more than 10
      columns, and no column labelled with the sentinel name. */
  predicate IsRawLayout(g: Grid)
  {
    |g| > 12 && Width(g) > 10 && Name(Sentinel) !in ColumnLabels(g)
  }

  /** The sentinel is compared with positional labels, so the layout depends
      on the shape alone. */
  lemma LayoutIsShapeOnly(g: Grid)
    ensures IsRawLayout(g) <==> |g| > 12 && Width(g) > 10
  {
    assert forall l :: l in ColumnLabels(g) ==> l.Position?;
  }

  // ---------------------------------------------------------------------
  // Wide-to-long reshape
  // ---------------------------------------------------------------------

  /** One long record: the eight canonical fields, as cell text. */
  datatype Measurement = Measurement(
    date: string, serial: string, of: string, name: string,
    mesure: string, nominal: string, tolMin: string, tolMax: string)

  /** The number of part rows and of dimension columns. */
  function DataRows(g: Grid): nat
  {
    if |g| > DataRow then |g| - DataRow else 0
  }

  function DataCols(g: Grid): nat
  {
    if Width(g) > DataCol then Width(g) - DataCol else 0
  }

  /** The record of part row `a` and dimension column `b`. */
  function RecordAt(g: Grid, a: nat, b: nat): Measurement
    requires a < DataRows(g)
  {
    var i := DataRow + a;
    var j := DataCol + b;
    Measurement(Cell(g, i, DateCol), Cell(g, i, SerialCol), Cell(g, i, OfCol),
                Cell(g, NamesRow, j), Cell(g, i, j),
                Cell(g, AimRow, j), Cell(g, MinRow, j), Cell(g, MaxRow, j))
  }

  function RowRecords(g: Grid, a: nat): (r: seq<Measurement>)
    requires a < DataRows(g)
    ensures |r| == DataCols(g)
    ensures forall b :: 0 <= b < DataCols(g) ==> r[b] == RecordAt(g, a, b)
  {
    seq(DataCols(g), b requires 0 <= b < DataCols(g) => RecordAt(g, a, b))
  }

  function RecordsFrom(g: Grid, a: nat): seq<Measurement>
    requires a <= DataRows(g)
    decreases DataRows(g) - a
  {
    if a == DataRows(g) then [] else RowRecords(g, a) + RecordsFrom(g, a + 1)
  }

  /** The long table: every part row in turn, every dimension column within it. */
  function Reshape(g: Grid): seq<Measurement>
  {
    RecordsFrom(g, 0)
  }

  lemma {:induction false} RecordsFromLength(g: Grid, a: nat)
    requires a <= DataRows(g)
    ensures |RecordsFrom(g, a)| == (DataRows(g) - a) * DataCols(g)
    decreases DataRows(g) - a
  {
    if a < DataRows(g) {
      var k := DataRows(g) - a - 1;
      var m := DataCols(g);
      RecordsFromLength(g, a + 1);
      assert RecordsFrom(g, a) == RowRecords(g, a) + RecordsFrom(g, a + 1);
      assert |RecordsFrom(g, a)| == m + k * m;
      MulStep(k, m);
    }
  }

  lemma MulStep(k: nat, m: nat)
    ensures (k + 1) * m == m + k * m
  {
  }

  /** `k * m + b`, spelt out as repeated addition. */
  function Offset(k: nat, m: nat, b: nat): (r: nat)
    ensures r == k * m + b
  {
    if k == 0 then b else MulStep(k - 1, m); m + Offset(k - 1, m, b)
  }

  lemma {:induction false} RecordsFromAt(g: Grid, a: nat, x: nat, b: nat)
    requires a <= x < DataRows(g) && b < DataCols(g)
    ensures Offset(x - a, DataCols(g), b) < |RecordsFrom(g, a)|
    ensures RecordsFrom(g, a)[Offset(x - a, DataCols(g), b)] == RecordAt(g, x, b)
    decreases x - a
  {
    var m := DataCols(g);
    var row := RowRecords(g, a);
    var rest := RecordsFrom(g, a + 1);
    assert RecordsFrom(g, a) == row + rest;
    if x > a {
      RecordsFromAt(g, a + 1, x, b);
      var off := Offset(x - a - 1, m, b);
      assert Offset(x - a, m, b) == m + off;
      assert (row + rest)[m + off] == rest[off];
    } else {
      assert Offset(x - a, m, b) == b;
      assert (row + rest)[b] == row[b];
    }
  }

  /** The long table has one record per (part row, dimension column), in
      row-major order. */
  lemma ReshapeShape(g: Grid)
    ensures |Reshape(g)| == DataRows(g) * DataCols(g)
    ensures forall a, b :: 0 <= a < DataRows(g) && 0 <= b < DataCols(g) ==>
      Offset(a, DataCols(g), b) < |Reshape(g)| && Reshape(g)[Offset(a, DataCols(g), b)] == RecordAt(g, a, b)
  {
    RecordsFromLength(g, 0);
    forall a, b | 0 <= a < DataRows(g) && 0 <= b < DataCols(g)
      ensures Offset(a, DataCols(g), b) < |Reshape(g)| && Reshape(g)[Offset(a, DataCols(g), b)] == RecordAt(g, a, b)
    {
      RecordsFromAt(g, 0, a, b);
      assert a - 0 == a;
    }
  }

  /** Records of the same dimension column carry the same name, nominal and
      tolerances, whatever the part. */
  lemma ColumnSharesLimits(g: Grid, a1: nat, a2: nat, b: nat)
    requires a1 < DataRows(g) && a2 < DataRows(g) && b < DataCols(g)
    ensures Offset(a1, DataCols(g), b) < |Reshape(g)| && Offset(a2, DataCols(g), b) < |Reshape(g)|
    ensures var r1 := Reshape(g)[Offset(a1, DataCols(g), b)];
      var r2 := Reshape(g)[Offset(a2, DataCols(g), b)];
      r1.name == r2.name && r1.nominal == r2.nominal &&
      r1.tolMin == r2.tolMin && r1.tolMax == r2.tolMax
  {
    RecordsFromAt(g, 0, a1, b);
    RecordsFromAt(g, 0, a2, b);
  }

  /** Records of the same part row carry the same date, serial and OF. */
  lemma RowSharesIdentity(g: Grid, a: nat, b1: nat, b2: nat)
    requires a < DataRows(g) && b1 < DataCols(g) && b2 < DataCols(g)
    ensures Offset(a, DataCols(g), b1) < |Reshape(g)| && Offset(a, DataCols(g), b2) < |Reshape(g)|
    ensures var r1 := Reshape(g)[Offset(a, DataCols(g), b1)];
      var r2 := Reshape(g)[Offset(a, DataCols(g), b2)];
      r1.date == r2.date && r1.serial == r2.serial && r1.of == r2.of
  {
    RecordsFromAt(g, 0, a, b1);
    RecordsFromAt(g, 0, a, b2);
  }

  /** Two grids that differ only in the plant-code column give the same
      records: the plant code is extracted but never emitted. */
  lemma {:induction false} PlantCodeIgnored(g: Grid, h: Grid, a: nat)
    requires |g| == |h| && Width(g) == Width(h)
    requires forall i, j :: 0 <= i < |g| && j != PlantCol ==> CellAt(g[i], j) == CellAt(h[i], j)
    requires a <= DataRows(g)
    ensures RecordsFrom(g, a) == RecordsFrom(h, a)
    decreases DataRows(g) - a
  {
    if a < DataRows(g) {
      PlantCodeIgnored(g, h, a + 1);
      assert RowRecords(g, a) == RowRecords(h, a);
    }
  }

  /** The loop of the cleaners: for each part row, for each dimension column,
      append one record. */
  method ReshapeLoop(g: Grid) returns (recs: seq<Measurement>)
    ensures recs == Reshape(g)
  {
    recs := [];
    var a := 0;
    while a < DataRows(g)
      invariant 0 <= a <= DataRows(g)
      invariant recs + RecordsFrom(g, a) == Reshape(g)
    {
      var b := 0;
      var row := [];
      while b < DataCols(g)
        invariant 0 <= b <= DataCols(g)
        invariant row == RowRecords(g, a)[..b]
      {
        row := row + [RecordAt(g, a, b)];
        b := b + 1;
      }
      assert row == RowRecords(g, a);
      recs := recs + row;
      a := a + 1;
    }
  }

  // ---------------------------------------------------------------------
  // The Excel cleaner: dates rewritten as YYYY-MM-DD
  // ---------------------------------------------------------------------

  /** A calendar date as the date parser returns it. */
  datatype Date = Date(year: nat, month: nat, day: nat)

  function Zeros(k: nat): (r: string)
    ensures |r| == k && AllDigits(r)
    ensures forall i :: 0 <= i < k ==> r[i] == '0'
  {
    seq(k, _ => '0')
  }

  /** Decimal rendering left-padded with zeros to `w` digits. */
  function Pad(n: nat, w: nat): string
  {
    var d := NatToString(n);
    if |d| >= w then d else Zeros(w - |d|) + d
  }

  /** `strftime("%Y-%m-%d")`. */
  function FormatDate(d: Date): string
  {
    Pad(d.year, 4) + "-" + Pad(d.month, 2) + "-" + Pad(d.day, 2)
  }

  /** Reading back the ISO form. */
  function ParseIsoDate(s: string): Option<Date>
  {
    if |s| == 10 && s[4] == '-' && s[7] == '-'
       && AllDigits(s[..4]) && AllDigits(s[5..7]) && AllDigits(s[8..])
    then Some(Date(DigitsValue(s[..4]), DigitsValue(s[5..7]), DigitsValue(s[8..])))
    else None
  }

  lemma {:induction false} LeadingZeros(k: nat, d: string)
    requires AllDigits(d)
    ensures AllDigits(Zeros(k) + d) && DigitsValue(Zeros(k) + d) == DigitsValue(d)
    decreases |d|, k
  {
    var s := Zeros(k) + d;
    if |d| == 0 {
      assert s == Zeros(k);
      if k > 0 {
        assert s[..|s| - 1] == Zeros(k - 1) + d;
        LeadingZeros(k - 1, d);
      }
    } else {
      assert s[..|s| - 1] == Zeros(k) + d[..|d| - 1];
      LeadingZeros(k, d[..|d| - 1]);
    }
  }

  lemma {:induction false} DigitCount(n: nat, w: nat)
    requires w >= 1 && n < Pow10(w)
    ensures |NatToString(n)| <= w
    decreases w
  {
    if n >= 10 {
      assert w >= 2;
      assert n / 10 < Pow10(w - 1);
      DigitCount(n / 10, w - 1);
    }
  }

  lemma PadDigits(n: nat, w: nat)
    requires w >= 1 && n < Pow10(w)
    ensures |Pad(n, w)| == w && AllDigits(Pad(n, w)) && DigitsValue(Pad(n, w)) == n
  {
    DigitCount(n, w);
    var d := NatToString(n);
    if |d| < w {
      LeadingZeros(w - |d|, d);
    }
  }

  /** A date whose year has at most four digits and whose month and day have
      at most two reads back from its ISO form. */
  lemma DateRoundTrip(d: Date)
    requires d.year < 10000 && d.month < 100 && d.day < 100
    ensures ParseIsoDate(FormatDate(d)) == Some(d)
  {
    PadDigits(d.year, 4);
    PadDigits(d.month, 2);
    PadDigits(d.day, 2);
    var y, m, dd := Pad(d.year, 4), Pad(d.month, 2), Pad(d.day, 2);
    var s := FormatDate(d);
    assert s[..4] == y;
    assert s[5..7] == m;
    assert s[8..] == dd;
  }

  /** The date cell as the Excel cleaner writes it: ISO form, or "" when the
      parser cannot read it. */
  function DateText(parseDate: string -> Option<Date>, cell: string): string
  {
    match parseDate(cell)
    case None => ""
    case Some(d) => FormatDate(d)
  }

  /** Why the Excel cleaner fails: the grid is too small for its fixed rows
      or identification columns. */
  datatype ShapeError = TooFewRows(rows: nat) | TooFewColumns(columns: nat)

  /** The Excel cleaner: the same reshape, with the date column rewritten. */
  function ExcelReshape(g: Grid, parseDate: string -> Option<Date>): (r: Result<seq<Measurement>, ShapeError>)
    ensures r.Err? <==> |g| <= MaxRow || Width(g) <= OfCol
    ensures r.Ok? ==> |r.value| == |Reshape(g)|
    ensures r.Ok? ==> forall k :: 0 <= k < |r.value| ==>
      r.value[k] == Reshape(g)[k].(date := DateText(parseDate, Reshape(g)[k].date))
  {
    if |g| <= MaxRow then Err(TooFewRows(|g|))
    else if Width(g) <= OfCol then Err(TooFewColumns(Width(g)))
    else
      var recs := Reshape(g);
      Ok(seq(|recs|, k requires 0 <= k < |recs| => recs[k].(date := DateText(parseDate, recs[k].date))))
  }

  /** Every date the Excel cleaner emits is either empty or an ISO date that
      reads back as what the parser returned. */
  lemma ExcelDates(g: Grid, parseDate: string -> Option<Date>, k: nat)
    requires ExcelReshape(g, parseDate).Ok? && k < |Reshape(g)|
    requires forall s :: parseDate(s).Some? ==>
      parseDate(s).value.year < 10000 && parseDate(s).value.month < 100 && parseDate(s).value.day < 100
    ensures var out := ExcelReshape(g, parseDate).value[k].date;
      var raw := Reshape(g)[k].date;
      (out == "" <==> parseDate(raw).None?) &&
      (parseDate(raw).Some? ==> ParseIsoDate(out) == parseDate(raw))
  {
    var raw := Reshape(g)[k].date;
    if parseDate(raw).Some? {
      DateRoundTrip(parseDate(raw).value);
    }
  }
}
