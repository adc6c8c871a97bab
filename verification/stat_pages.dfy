/** The two statistics pages: a pasted table is checked against the page's
    columns, its numeric columns are read, every row gets its gap and its
    out-of-tolerance flag, and the rows are summarised per key. The quick
    study groups every row by dimension name; the series dashboard groups the
    rows of one manufacturing order by dimension value. */
module StatPages {
  import opened Base
  import opened Sheet
  import opened Numbers
  import opened Stats

  const QuickColumns: seq<string> :=
    ["Date", "Serial", "OF", "Cote", "Nom_Cote", "Mesure_Theorique",
     "Tol\U{E9}rance_Min", "Tol\U{E9}rance_Max"]

  const SeriesColumns: seq<string> :=
    ["Datetime", "Serial", "OF", "Cote", "Mesure_Theorique",
     "Tol\U{E9}rance_Min", "Tol\U{E9}rance_Max"]

  /** The numeric columns, in the order the page first computes with them;
      only "Cote" goes through the decimal-comma conversion. */
  const NumericColumns: seq<string> :=
    ["Cote", "Mesure_Theorique", "Tol\U{E9}rance_Min", "Tol\U{E9}rance_Max"]

  // ---------------------------------------------------------------------
  // Reading cells
  // ---------------------------------------------------------------------

  /** Every cell of the column converts ("Cote" with a decimal comma). */
  predicate ColumnReads(t: Table, col: string)
  {
    RowsRead(t.header, t.rows, col, col == "Cote")
  }

  /** The first numeric column holding a cell that does not convert. */
  function FirstBadColumn(t: Table, cols: seq<string>): (r: Option<nat>)
    ensures r.None? <==> forall k :: 0 <= k < |cols| ==> ColumnReads(t, cols[k])
    ensures r.Some? ==> r.value < |cols| && !ColumnReads(t, cols[r.value])
                        && forall j :: 0 <= j < r.value ==> ColumnReads(t, cols[j])
    decreases |cols|
  {
    if |cols| == 0 then None
    else if !ColumnReads(t, cols[0]) then Some(0)
    else
      assert forall k :: 1 <= k < |cols| ==> cols[1..][k - 1] == cols[k];
      match FirstBadColumn(t, cols[1..])
      case None => None
      case Some(k) => Some(k + 1)
  }

  predicate AllColumnsRead(t: Table)
  {
    forall k :: 0 <= k < |NumericColumns| ==> ColumnReads(t, NumericColumns[k])
  }

  /** Every numeric cell of one row converts. */
  predicate RowReads(header: seq<string>, row: seq<string>)
  {
    forall k :: 0 <= k < |NumericColumns| ==>
      CellReads(Get(header, row, NumericColumns[k]), NumericColumns[k] == "Cote")
  }

  // ---------------------------------------------------------------------
  // Rows
  // ---------------------------------------------------------------------

  /** One pasted row as the pages compute with it. */
  datatype Reading = Reading(
    name: string, of: string, cote: Option<real>, value: Option<real>,
    tolMin: Option<real>, tolMax: Option<real>)

  function ReadingOf(header: seq<string>, row: seq<string>): Reading
  {
    Reading(
      Get(header, row, "Nom_Cote"),
      Str(Get(header, row, "OF")),
      NumberIn(Get(header, row, "Cote"), true),
      NumberIn(Get(header, row, "Mesure_Theorique"), false),
      NumberIn(Get(header, row, "Tol\U{E9}rance_Min"), false),
      NumberIn(Get(header, row, "Tol\U{E9}rance_Max"), false))
  }

  datatype PageError = MissingColumns(schema: SchemaError) | NotNumeric(column: string)

  /** The column check, then the numeric conversions; a failure in either
      stops the page with an error. */
  function ReadTable(t: Table, expected: seq<string>): (r: Result<seq<Reading>, PageError>)
    ensures (r.Err? && r.error.MissingColumns?) <==> !HasColumns(t.header, expected)
    ensures r.Err? && r.error.MissingColumns? ==>
      r.error.schema == SchemaError(expected, t.header)
    ensures r.Ok? <==> HasColumns(t.header, expected) && AllColumnsRead(t)
    ensures r.Err? && r.error.NotNumeric? ==>
      r.error.column in NumericColumns && !ColumnReads(t, r.error.column)
    ensures r.Ok? ==> |r.value| == |t.rows|
    ensures r.Ok? ==> forall i :: 0 <= i < |t.rows| ==> r.value[i] == ReadingOf(t.header, t.rows[i])
  {
    match CheckColumns(t.header, expected)
    case Some(e) => Err(MissingColumns(e))
    case None =>
      match FirstBadColumn(t, NumericColumns)
      case Some(k) => Err(NotNumeric(NumericColumns[k]))
      case None => Ok(ReadAll(t.header, t.rows))
  }

  /** Every row's reading, in table order. */
  function ReadAll(header: seq<string>, rows: seq<seq<string>>): (r: seq<Reading>)
    ensures |r| == |rows|
    ensures forall i :: 0 <= i < |rows| ==> r[i] == ReadingOf(header, rows[i])
  {
    seq(|rows|, i requires 0 <= i < |rows| => ReadingOf(header, rows[i]))
  }

  /** Appending a row whose numeric cells convert appends its reading. */
  lemma {:induction false} ReadTableAppend(t: Table, row: seq<string>, expected: seq<string>)
    requires ReadTable(t, expected).Ok? && RowReads(t.header, row)
    ensures ReadTable(Table(t.header, t.rows + [row]), expected)
            == Ok(ReadTable(t, expected).value + [ReadingOf(t.header, row)])
  {
    AllColumnsReadAppend(t, row);
    ReadAllAppend(t.header, t.rows, row);
  }

  lemma ReadAllAppend(header: seq<string>, rows: seq<seq<string>>, row: seq<string>)
    ensures ReadAll(header, rows + [row]) == ReadAll(header, rows) + [ReadingOf(header, row)]
  {
    assert forall i :: 0 <= i < |rows| ==> (rows + [row])[i] == rows[i];
  }

  lemma AllColumnsReadAppend(t: Table, row: seq<string>)
    requires AllColumnsRead(t) && RowReads(t.header, row)
    ensures AllColumnsRead(Table(t.header, t.rows + [row]))
  {
    forall k | 0 <= k < |NumericColumns|
      ensures ColumnReads(Table(t.header, t.rows + [row]), NumericColumns[k])
    {
      RowsReadAppend(t.header, t.rows, row, NumericColumns[k], NumericColumns[k] == "Cote");
    }
  }

  /** The row with its gap `Mesure_Theorique - Cote` and its flag. */
  function ObsOf(r: Reading): (o: Obs)
    ensures o.gap.Some? <==> r.value.Some? && r.cote.Some?
    ensures o.gap.Some? ==> o.gap.value + r.cote.value == r.value.value
    ensures !o.out ==> o.value.Some? && r.tolMin.Some? && r.tolMax.Some?
                       && r.tolMin.value <= o.value.value <= r.tolMax.value
  {
    Obs(r.value, Sub(r.value, r.cote), OutOfTolerance(r.value, r.tolMin, r.tolMax), r.tolMin, r.tolMax)
  }

  /** A row inside its closed tolerance range is not flagged, and a row
      missing its value or a bound always is. */
  lemma FlagIffOutside(r: Reading)
    ensures !ObsOf(r).out <==>
      r.value.Some? && r.tolMin.Some? && r.tolMax.Some? && r.tolMin.value <= r.value.value <= r.tolMax.value
    ensures r.value.None? || r.tolMin.None? || r.tolMax.None? ==> ObsOf(r).out
  {
  }

  /** The rows whose key is present, keyed, in table order (pandas' groupby
      drops missing keys). */
  function KeepKeyed<K>(ks: seq<Option<K>>, os: seq<Obs>): (r: seq<(K, Obs)>)
    requires |ks| == |os|
    ensures |r| <= |ks|
    ensures forall i :: 0 <= i < |r| ==> exists j :: 0 <= j < |ks| && ks[j] == Some(r[i].0) && os[j] == r[i].1
    ensures forall j :: 0 <= j < |ks| && ks[j].Some? ==> (ks[j].value, os[j]) in r
    decreases |ks|
  {
    if |ks| == 0 then []
    else
      var n := |ks| - 1;
      var pre := KeepKeyed(ks[..n], os[..n]);
      assert forall j :: 0 <= j < n ==> ks[..n][j] == ks[j] && os[..n][j] == os[j];
      if ks[n].Some? then pre + [(ks[n].value, os[n])] else pre
  }

  /** The keys present among the rows' keys. */
  lemma KeepKeyedKeys<K>(ks: seq<Option<K>>, os: seq<Obs>)
    requires |ks| == |os|
    ensures Keys(KeepKeyed(ks, os)) == set j | 0 <= j < |ks| && ks[j].Some? :: ks[j].value
  {
    var r := KeepKeyed(ks, os);
    forall k | k in Keys(r) ensures exists j :: 0 <= j < |ks| && ks[j] == Some(k) {
      var i :| 0 <= i < |r| && r[i].0 == k;
    }
    forall j | 0 <= j < |ks| && ks[j].Some? ensures ks[j].value in Keys(r) {
      var i :| 0 <= i < |r| && r[i] == (ks[j].value, os[j]);
    }
  }

  /** Rows without a key do not change what is kept. */
  lemma KeepKeyedSkipsNone<K>(ks: seq<Option<K>>, os: seq<Obs>, o: Obs)
    requires |ks| == |os|
    ensures KeepKeyed(ks + [None], os + [o]) == KeepKeyed(ks, os)
  {
    assert (ks + [None])[..|ks|] == ks;
    assert (os + [o])[..|os|] == os;
  }

  /** A keyed row is appended as it is; an unkeyed one is dropped. */
  lemma KeepKeyedAppend<K>(ks: seq<Option<K>>, os: seq<Obs>, kx: Option<K>, o: Obs)
    requires |ks| == |os|
    ensures KeepKeyed(ks + [kx], os + [o]) == KeepKeyed(ks, os) + (if kx.Some? then [(kx.value, o)] else [])
  {
    assert (ks + [kx])[..|ks|] == ks;
    assert (os + [o])[..|os|] == os;
  }

  // ---------------------------------------------------------------------
  // The quick study: every row, grouped by dimension name
  // ---------------------------------------------------------------------

  function NameKey(r: Reading): Option<string>
  {
    if IsNull(r.name) then None else Some(r.name)
  }

  function NameKeys(rs: seq<Reading>): (r: seq<Option<string>>)
    ensures |r| == |rs| && forall i :: 0 <= i < |rs| ==> r[i] == NameKey(rs[i])
  {
    seq(|rs|, i requires 0 <= i < |rs| => NameKey(rs[i]))
  }

  function ObsAll(rs: seq<Reading>): (r: seq<Obs>)
    ensures |r| == |rs| && forall i :: 0 <= i < |rs| ==> r[i] == ObsOf(rs[i])
  {
    seq(|rs|, i requires 0 <= i < |rs| => ObsOf(rs[i]))
  }

  /** The keyed rows the quick study groups: every named row. */
  function NamedRows(rs: seq<Reading>): seq<(string, Obs)>
  {
    KeepKeyed(NameKeys(rs), ObsAll(rs))
  }

  /** The statistics table of the quick study: one row per named dimension,
      computed over all rows of that name whatever their OF. */
  function QuickStudy(t: Table, sqrt: real -> real): (r: Result<map<string, Summary>, PageError>)
    requires IsSqrt(sqrt)
    ensures r.Ok? <==> ReadTable(t, QuickColumns).Ok?
    ensures r.Err? ==> r.error == ReadTable(t, QuickColumns).error
    ensures r.Ok? ==> forall k :: k in r.value ==> r.value[k].n > 0
    ensures r.Ok? ==> forall k :: k in r.value ==>
      r.value[k] == Summarize(GroupOf(NamedRows(ReadTable(t, QuickColumns).value), k), sqrt)
  {
    match ReadTable(t, QuickColumns)
    case Err(e) => Err(e)
    case Ok(rs) => Ok(StatsBy(NamedRows(rs), sqrt))
  }

  /** The names keyed are exactly the non-missing ones. */
  lemma NamedRowsKeys(rs: seq<Reading>)
    ensures Keys(NamedRows(rs)) == set i | 0 <= i < |rs| && !IsNull(rs[i].name) :: rs[i].name
  {
    KeepKeyedKeys(NameKeys(rs), ObsAll(rs));
  }

  /** The table has one statistics row per non-missing dimension name. */
  lemma QuickStudyKeys(t: Table, sqrt: real -> real)
    requires IsSqrt(sqrt) && QuickStudy(t, sqrt).Ok?
    ensures QuickStudy(t, sqrt).value.Keys
      == set i | 0 <= i < |t.rows| && !IsNull(Get(t.header, t.rows[i], "Nom_Cote"))
               :: Get(t.header, t.rows[i], "Nom_Cote")
  {
    var rs := ReadTable(t, QuickColumns).value;
    NamedRowsKeys(rs);
    assert forall i :: 0 <= i < |t.rows| ==> rs[i].name == Get(t.header, t.rows[i], "Nom_Cote");
  }

  /** A pasted row without a dimension name changes no statistic, provided
      its numeric cells convert. */
  lemma UnnamedRowIgnored(t: Table, row: seq<string>, sqrt: real -> real)
    requires IsSqrt(sqrt) && QuickStudy(t, sqrt).Ok?
    requires IsNull(Get(t.header, row, "Nom_Cote")) && RowReads(t.header, row)
    ensures QuickStudy(Table(t.header, t.rows + [row]), sqrt) == QuickStudy(t, sqrt)
  {
    var rs := ReadTable(t, QuickColumns).value;
    ReadTableAppend(t, row, QuickColumns);
    NamedRowsSkipsUnnamed(rs, ReadingOf(t.header, row));
  }

  lemma NamedRowsSkipsUnnamed(rs: seq<Reading>, x: Reading)
    requires IsNull(x.name)
    ensures NamedRows(rs + [x]) == NamedRows(rs)
  {
    assert NameKeys(rs + [x]) == NameKeys(rs) + [None];
    assert ObsAll(rs + [x]) == ObsAll(rs) + [ObsOf(x)];
    KeepKeyedSkipsNone(NameKeys(rs), ObsAll(rs), ObsOf(x));
  }

  /** Which rows carry the dimension name `k`. */
  function NameMarks(rs: seq<Reading>, k: string): (m: seq<bool>)
    ensures |m| == |rs| && forall i :: 0 <= i < |rs| ==> m[i] == (NameKey(rs[i]) == Some(k))
  {
    seq(|rs|, i requires 0 <= i < |rs| => NameKey(rs[i]) == Some(k))
  }

  /** Which keys are `Some(k)`. */
  function KeyIs<K(==)>(ks: seq<Option<K>>, k: K): (m: seq<bool>)
    ensures |m| == |ks| && forall i :: 0 <= i < |ks| ==> m[i] == (ks[i] == Some(k))
  {
    seq(|ks|, i requires 0 <= i < |ks| => ks[i] == Some(k))
  }

  lemma KeyIsAppend<K>(ks: seq<Option<K>>, kx: Option<K>, k: K)
    ensures KeyIs(ks + [kx], k) == KeyIs(ks, k) + [kx == Some(k)]
  {
    assert forall i :: 0 <= i < |ks| ==> (ks + [kx])[i] == ks[i];
  }

  /** Grouping the kept rows under `k` selects the observations whose key
      is `Some(k)`, once each and in order. */
  lemma {:induction false} KeepKeyedSelects<K>(ks: seq<Option<K>>, os: seq<Obs>, k: K)
    requires |ks| == |os|
    ensures exists idx :: SelectedAt(os, KeyIs(ks, k), idx, GroupOf(KeepKeyed(ks, os), k))
    decreases |ks|
  {
    if |ks| == 0 {
      assert KeepKeyed(ks, os) == [];
      assert GroupOf(KeepKeyed(ks, os), k) == [];
      assert SelectedAt(os, KeyIs(ks, k), [], []);
    } else {
      var n := |ks| - 1;
      var kp, op := ks[..n], os[..n];
      var b := ks[n] == Some(k);
      assert ks == kp + [ks[n]] && os == op + [os[n]];
      KeepKeyedAppend(kp, op, ks[n], os[n]);
      if ks[n].Some? {
        GroupOfAppend(KeepKeyed(kp, op), (ks[n].value, os[n]), k);
      }
      KeyIsAppend(kp, ks[n], k);
      KeepKeyedSelects(kp, op, k);
      SelectedExtend(op, KeyIs(kp, k), GroupOf(KeepKeyed(kp, op), k), os[n], b, GroupOf(KeepKeyed(ks, os), k));
    }
  }

  /** The group the quick study summarises for name `k` holds the
      observation of every row named `k`, once each and in table order, and
      nothing else. */
  lemma NamedGroupSelects(rs: seq<Reading>, k: string)
    ensures exists idx :: SelectedAt(ObsAll(rs), NameMarks(rs, k), idx, GroupOf(NamedRows(rs), k))
  {
    var g := GroupOf(NamedRows(rs), k);
    KeepKeyedSelects(NameKeys(rs), ObsAll(rs), k);
    var idx :| SelectedAt(ObsAll(rs), KeyIs(NameKeys(rs), k), idx, g);
    assert KeyIs(NameKeys(rs), k) == NameMarks(rs, k);
    assert SelectedAt(ObsAll(rs), NameMarks(rs, k), idx, g);
  }

  /** Each statistics row of the quick study summarises exactly the rows of
      its dimension name, in table order. */
  lemma QuickStudyGroups(t: Table, sqrt: real -> real, k: string)
    requires IsSqrt(sqrt) && QuickStudy(t, sqrt).Ok? && k in QuickStudy(t, sqrt).value
    ensures var rs := ReadTable(t, QuickColumns).value;
      exists idx :: SelectedAt(ObsAll(rs), NameMarks(rs, k), idx, GroupOf(NamedRows(rs), k))
        && QuickStudy(t, sqrt).value[k] == Summarize(GroupOf(NamedRows(rs), k), sqrt)
  {
    var rs := ReadTable(t, QuickColumns).value;
    NamedGroupSelects(rs, k);
  }

  // ---------------------------------------------------------------------
  // The series dashboard: one OF, grouped by dimension value
  // ---------------------------------------------------------------------

  /** The OFs offered for selection: each distinct printed OF once, in order
      of first appearance. */
  function OfChoices(rs: seq<Reading>): (r: seq<string>)
    ensures forall i, j :: 0 <= i < j < |r| ==> r[i] != r[j]
    ensures forall x :: x in r <==> exists i :: 0 <= i < |rs| && rs[i].of == x
    decreases |rs|
  {
    if |rs| == 0 then []
    else
      var n := |rs| - 1;
      var pre := OfChoices(rs[..n]);
      assert forall i :: 0 <= i < n ==> rs[..n][i] == rs[i];
      if rs[n].of in pre then pre else pre + [rs[n].of]
  }

  /** `df[df["OF"].astype(str) == selected]`. */
  function RowsOfOf(rs: seq<Reading>, selected: string): (r: seq<Reading>)
    ensures forall x :: x in r <==> x in rs && x.of == selected
    ensures |r| <= |rs|
    decreases |rs|
  {
    if |rs| == 0 then []
    else
      var n := |rs| - 1;
      assert rs == rs[..n] + [rs[n]];
      RowsOfOf(rs[..n], selected) + (if rs[n].of == selected then [rs[n]] else [])
  }

  /** Every OF offered selects at least one row. */
  lemma ChoiceSelectsRows(rs: seq<Reading>, selected: string)
    requires selected in OfChoices(rs)
    ensures |RowsOfOf(rs, selected)| > 0
  {
    var i :| 0 <= i < |rs| && rs[i].of == selected;
    assert rs[i] in RowsOfOf(rs, selected);
  }

  function CoteKeys(rs: seq<Reading>): (r: seq<Option<real>>)
    ensures |r| == |rs| && forall i :: 0 <= i < |rs| ==> r[i] == rs[i].cote
  {
    seq(|rs|, i requires 0 <= i < |rs| => rs[i].cote)
  }

  /** The keyed rows the series dashboard groups: the rows of the selected
      OF that carry a dimension value. */
  function SeriesRows(rs: seq<Reading>, selected: string): seq<(real, Obs)>
  {
    var sel := RowsOfOf(rs, selected);
    KeepKeyed(CoteKeys(sel), ObsAll(sel))
  }

  /** The statistics table of the series dashboard: the rows of the selected
      OF, one statistics row per dimension value. */
  function SeriesStudy(t: Table, selected: string, sqrt: real -> real): (r: Result<map<real, Summary>, PageError>)
    requires IsSqrt(sqrt)
    ensures r.Ok? <==> ReadTable(t, SeriesColumns).Ok?
    ensures r.Err? ==> r.error == ReadTable(t, SeriesColumns).error
    ensures r.Ok? ==> forall k :: k in r.value ==> r.value[k].n > 0
    ensures r.Ok? ==> forall k :: k in r.value ==>
      r.value[k] == Summarize(GroupOf(SeriesRows(ReadTable(t, SeriesColumns).value, selected), k), sqrt)
  {
    match ReadTable(t, SeriesColumns)
    case Err(e) => Err(e)
    case Ok(rs) => Ok(StatsBy(SeriesRows(rs, selected), sqrt))
  }

  /** The dimension values keyed are those measured on the selected OF. */
  lemma SeriesRowsKeys(rs: seq<Reading>, selected: string)
    ensures forall k :: k in Keys(SeriesRows(rs, selected)) <==>
      exists i :: 0 <= i < |rs| && rs[i].of == selected && rs[i].cote == Some(k)
  {
    forall k ensures k in Keys(SeriesRows(rs, selected)) <==>
      exists i :: 0 <= i < |rs| && rs[i].of == selected && rs[i].cote == Some(k)
    {
      if k in Keys(SeriesRows(rs, selected)) {
        SeriesKeyIn(rs, selected, k);
      }
      if exists i :: 0 <= i < |rs| && rs[i].of == selected && rs[i].cote == Some(k) {
        SeriesKeyOut(rs, selected, k);
      }
    }
  }

  lemma SeriesKeyIn(rs: seq<Reading>, selected: string, k: real)
    requires k in Keys(SeriesRows(rs, selected))
    ensures exists i :: 0 <= i < |rs| && rs[i].of == selected && rs[i].cote == Some(k)
  {
    var sel := RowsOfOf(rs, selected);
    var keyed := SeriesRows(rs, selected);
    var p :| 0 <= p < |keyed| && keyed[p].0 == k;
    var j :| 0 <= j < |sel| && CoteKeys(sel)[j] == Some(k) && ObsAll(sel)[j] == keyed[p].1;
    assert sel[j] in sel;
    var i :| 0 <= i < |rs| && rs[i] == sel[j];
  }

  lemma SeriesKeyOut(rs: seq<Reading>, selected: string, k: real)
    requires exists i :: 0 <= i < |rs| && rs[i].of == selected && rs[i].cote == Some(k)
    ensures k in Keys(SeriesRows(rs, selected))
  {
    var sel := RowsOfOf(rs, selected);
    var keyed := SeriesRows(rs, selected);
    var i :| 0 <= i < |rs| && rs[i].of == selected && rs[i].cote == Some(k);
    assert rs[i] in sel;
    var j :| 0 <= j < |sel| && sel[j] == rs[i];
    assert CoteKeys(sel)[j] == Some(k);
    assert (k, ObsAll(sel)[j]) in keyed;
    var p :| 0 <= p < |keyed| && keyed[p] == (k, ObsAll(sel)[j]);
  }

  lemma RowsOfOfAppend(rs: seq<Reading>, x: Reading, selected: string)
    ensures RowsOfOf(rs + [x], selected) == RowsOfOf(rs, selected) + (if x.of == selected then [x] else [])
  {
    assert (rs + [x])[..|rs|] == rs;
  }

  /** The key a row is grouped under by the series dashboard: its dimension
      value when it belongs to the selected OF, none otherwise. */
  function SeriesKeys(rs: seq<Reading>, selected: string): (r: seq<Option<real>>)
    ensures |r| == |rs| && forall i :: 0 <= i < |rs| ==> r[i] == (if rs[i].of == selected then rs[i].cote else None)
  {
    seq(|rs|, i requires 0 <= i < |rs| => if rs[i].of == selected then rs[i].cote else None)
  }

  lemma ObsAllAppend(rs: seq<Reading>, x: Reading)
    ensures ObsAll(rs + [x]) == ObsAll(rs) + [ObsOf(x)]
  {
    assert forall i :: 0 <= i < |rs| ==> (rs + [x])[i] == rs[i];
  }

  lemma SeriesKeysAppend(rs: seq<Reading>, x: Reading, selected: string)
    ensures SeriesKeys(rs + [x], selected) == SeriesKeys(rs, selected) + [if x.of == selected then x.cote else None]
  {
    assert forall i :: 0 <= i < |rs| ==> (rs + [x])[i] == rs[i];
  }

  /** One more row changes the series rows as it changes the rows kept over
      the whole table. */
  lemma SeriesRowsAppend(rs: seq<Reading>, x: Reading, selected: string)
    ensures SeriesRows(rs + [x], selected) == SeriesRows(rs, selected)
      + (if x.of == selected && x.cote.Some? then [(x.cote.value, ObsOf(x))] else [])
  {
    var sel := RowsOfOf(rs, selected);
    RowsOfOfAppend(rs, x, selected);
    if x.of == selected {
      assert CoteKeys(sel + [x]) == CoteKeys(sel) + [x.cote] by {
        assert forall i :: 0 <= i < |sel| ==> (sel + [x])[i] == sel[i];
      }
      ObsAllAppend(sel, x);
      KeepKeyedAppend(CoteKeys(sel), ObsAll(sel), x.cote, ObsOf(x));
      assert RowsOfOf(rs + [x], selected) == sel + [x];
      assert SeriesRows(rs + [x], selected) == KeepKeyed(CoteKeys(sel + [x]), ObsAll(sel + [x]));
    } else {
      assert RowsOfOf(rs + [x], selected) == sel;
    }
  }

  /** Filtering on the OF and then keeping the keyed rows is one pass of
      keeping over the whole table. */
  lemma {:induction false} SeriesRowsKeep(rs: seq<Reading>, selected: string)
    ensures SeriesRows(rs, selected) == KeepKeyed(SeriesKeys(rs, selected), ObsAll(rs))
    decreases |rs|
  {
    if |rs| == 0 {
      assert RowsOfOf(rs, selected) == [];
      assert SeriesRows(rs, selected) == [];
      assert KeepKeyed(SeriesKeys(rs, selected), ObsAll(rs)) == [];
    } else {
      var n := |rs| - 1;
      var pre, x := rs[..n], rs[n];
      assert rs == pre + [x];
      SeriesKeysAppend(pre, x, selected);
      ObsAllAppend(pre, x);
      KeepKeyedAppend(SeriesKeys(pre, selected), ObsAll(pre), if x.of == selected then x.cote else None, ObsOf(x));
      SeriesRowsAppend(pre, x, selected);
      SeriesRowsKeep(pre, selected);
    }
  }

  /** Which rows belong to the selected OF and carry the dimension value `k`. */
  function SeriesMarks(rs: seq<Reading>, selected: string, k: real): (m: seq<bool>)
    ensures |m| == |rs| && forall i :: 0 <= i < |rs| ==> m[i] == (rs[i].of == selected && rs[i].cote == Some(k))
  {
    seq(|rs|, i requires 0 <= i < |rs| => rs[i].of == selected && rs[i].cote == Some(k))
  }

  /** The group the series dashboard summarises for value `k` holds the
      observation of every row of the selected OF with that value, once each
      and in table order, and nothing else. */
  lemma SeriesGroupSelects(rs: seq<Reading>, selected: string, k: real)
    ensures exists idx :: SelectedAt(ObsAll(rs), SeriesMarks(rs, selected, k), idx, GroupOf(SeriesRows(rs, selected), k))
  {
    var g := GroupOf(SeriesRows(rs, selected), k);
    SeriesRowsKeep(rs, selected);
    KeepKeyedSelects(SeriesKeys(rs, selected), ObsAll(rs), k);
    var idx :| SelectedAt(ObsAll(rs), KeyIs(SeriesKeys(rs, selected), k), idx, g);
    assert KeyIs(SeriesKeys(rs, selected), k) == SeriesMarks(rs, selected, k);
    assert SelectedAt(ObsAll(rs), SeriesMarks(rs, selected, k), idx, g);
  }

  /** Each statistics row of the series dashboard summarises exactly the
      rows of the selected OF with its dimension value, in table order. */
  lemma SeriesStudyGroups(t: Table, selected: string, sqrt: real -> real, k: real)
    requires IsSqrt(sqrt) && SeriesStudy(t, selected, sqrt).Ok? && k in SeriesStudy(t, selected, sqrt).value
    ensures var rs := ReadTable(t, SeriesColumns).value;
      exists idx :: SelectedAt(ObsAll(rs), SeriesMarks(rs, selected, k), idx, GroupOf(SeriesRows(rs, selected), k))
        && SeriesStudy(t, selected, sqrt).value[k] == Summarize(GroupOf(SeriesRows(rs, selected), k), sqrt)
  {
    var rs := ReadTable(t, SeriesColumns).value;
    SeriesGroupSelects(rs, selected, k);
  }

  /** The table has one statistics row per dimension value measured on the
      selected OF. */
  lemma SeriesStudyKeys(t: Table, selected: string, sqrt: real -> real)
    requires IsSqrt(sqrt) && SeriesStudy(t, selected, sqrt).Ok?
    ensures forall k :: k in SeriesStudy(t, selected, sqrt).value <==>
      exists i :: 0 <= i < |t.rows| && Str(Get(t.header, t.rows[i], "OF")) == selected
                  && NumberIn(Get(t.header, t.rows[i], "Cote"), true) == Some(k)
  {
    var rs := ReadTable(t, SeriesColumns).value;
    SeriesRowsKeys(rs, selected);
    assert forall i :: 0 <= i < |rs| ==> rs[i] == ReadingOf(t.header, t.rows[i]);
  }

  /** Rows of other OFs change no statistic, provided their numeric cells
      convert. */
  lemma OtherOfIgnored(t: Table, row: seq<string>, selected: string, sqrt: real -> real)
    requires IsSqrt(sqrt) && SeriesStudy(t, selected, sqrt).Ok?
    requires Str(Get(t.header, row, "OF")) != selected && RowReads(t.header, row)
    ensures SeriesStudy(Table(t.header, t.rows + [row]), selected, sqrt) == SeriesStudy(t, selected, sqrt)
  {
    var rs := ReadTable(t, SeriesColumns).value;
    var x := ReadingOf(t.header, row);
    ReadTableAppend(t, row, SeriesColumns);
    assert (rs + [x])[..|rs|] == rs;
    assert RowsOfOf(rs + [x], selected) == RowsOfOf(rs, selected);
  }
}
