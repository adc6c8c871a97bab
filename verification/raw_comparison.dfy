/** The older comparison page: one pasted batch is checked against the
    canonical columns, only its measures accept a decimal comma, the gap is
    taken the other way round and the tolerance flag looks at the nominal. */
module RawComparison {
  import opened Base
  import opened Sheet
  import opened Numbers
  import opened Stats
  import Comparison

  /** The numeric columns with the decimal-comma tolerance each gets: only
      `Mesure` is normalised, the others are read as the text parser typed
      them. */
  const NumericColumns: seq<string> :=
    ["Mesure", "Nominal", "Tol\U{E9}rance_Min", "Tol\U{E9}rance_Max"]

  function CommaIn(k: nat): bool
  {
    k == 0
  }

  /** A row of this page: the gap is `Nominal - Mesure` and the flag is set
      when the nominal lies outside the bounds. */
  datatype RawRow = RawRow(
    serial: string, of: string, name: string,
    mesure: Option<real>, nominal: Option<real>, tolMin: Option<real>, tolMax: Option<real>,
    gap: Option<real>, out: bool)

  function RawRowOf(header: seq<string>, row: seq<string>): (r: RawRow)
    ensures r.gap.Some? <==> r.mesure.Some? && r.nominal.Some?
    ensures r.gap.Some? ==> r.gap.value + r.mesure.value == r.nominal.value
    ensures !r.out <==> r.nominal.Some? && r.tolMin.Some? && r.tolMax.Some?
                        && r.tolMin.value <= r.nominal.value <= r.tolMax.value
  {
    var m := NumberIn(Get(header, row, "Mesure"), true);
    var n := NumberIn(Get(header, row, "Nominal"), false);
    var lo := NumberIn(Get(header, row, "Tol\U{E9}rance_Min"), false);
    var hi := NumberIn(Get(header, row, "Tol\U{E9}rance_Max"), false);
    RawRow(Get(header, row, "Serial"), Get(header, row, "OF"), Get(header, row, "Nom_Cote"),
           m, n, lo, hi, Sub(n, m), OutOfTolerance(n, lo, hi))
  }

  function RawRowsOf(header: seq<string>, rows: seq<seq<string>>): (r: seq<RawRow>)
    ensures |r| == |rows|
    ensures forall i :: 0 <= i < |rows| ==> r[i] == RawRowOf(header, rows[i])
  {
    seq(|rows|, i requires 0 <= i < |rows| => RawRowOf(header, rows[i]))
  }

  /** Every numeric cell converts, with a comma allowed in `Mesure` only. */
  predicate Converts(t: Table)
  {
    forall k :: 0 <= k < |NumericColumns| ==> RowsRead(t.header, t.rows, NumericColumns[k], CommaIn(k))
  }

  /** `traiter_csv_brut`: None when a column is missing or any conversion or
      arithmetic fails, otherwise every row converted. */
  function Process(t: Table): (r: Option<seq<RawRow>>)
    ensures r.Some? <==> HasColumns(t.header, CanonicalColumns) && Converts(t)
    ensures r.Some? ==> |r.value| == |t.rows|
    ensures r.Some? ==> forall i :: 0 <= i < |t.rows| ==> r.value[i] == RawRowOf(t.header, t.rows[i])
  {
    if CheckColumns(t.header, CanonicalColumns).Some? || !Converts(t) then None
    else Some(RawRowsOf(t.header, t.rows))
  }

  /** A decimal comma in a nominal cell makes the whole batch fail here,
      while the other comparison page reads it. */
  lemma CommaNominalRejected(t: Table, i: nat)
    requires i < |t.rows|
    requires !IsNull(Get(t.header, t.rows[i], "Nominal"))
    requires ParseDecimal(Get(t.header, t.rows[i], "Nominal")).None?
    ensures Process(t).None?
  {
    RowsReadEach(t.header, t.rows, NumericColumns[1], CommaIn(1));
  }

  /** The flag ignores the measure: rows that agree on the nominal and the
      bounds are flagged alike whatever was measured. */
  lemma FlagIgnoresMesure(header: seq<string>, row: seq<string>, other: seq<string>)
    requires Get(header, row, "Nominal") == Get(header, other, "Nominal")
    requires Get(header, row, "Tol\U{E9}rance_Min") == Get(header, other, "Tol\U{E9}rance_Min")
    requires Get(header, row, "Tol\U{E9}rance_Max") == Get(header, other, "Tol\U{E9}rance_Max")
    ensures RawRowOf(header, row).out == RawRowOf(header, other).out
  {
  }

  /** On a row whose nominal is written without a comma, the two comparison
      pages compute gaps of opposite sign. */
  lemma OppositeGap(header: seq<string>, row: seq<string>)
    requires forall i :: 0 <= i < |Get(header, row, "Nominal")| ==> Get(header, row, "Nominal")[i] != ','
    ensures RawRowOf(header, row).gap.Some? <==> Comparison.RowOf(header, row).gap.Some?
    ensures RawRowOf(header, row).gap.Some? ==>
      RawRowOf(header, row).gap.value == -Comparison.RowOf(header, row).gap.value
  {
    CommaFreeSame(Get(header, row, "Nominal"));
  }
}
