/** The pasted-text cleaner: decide the layout, build the long table, check
    the column contract, extend the registry, and attach each row's angle and
    type from the registry. */
module Cleaning {
  import opened Base
  import opened Text
  import opened Sheet
  import opened CoteType
  import opened Registry
  import opened RawLayout

  /** The structured layout: row 0 is the header (labels stripped of
      surrounding whitespace), the other rows are records. */
  function StructuredHeader(g: Grid): (h: seq<string>)
    requires |g| > 0
    ensures |h| == |g[0]|
    ensures forall j :: 0 <= j < |h| ==> h[j] == Strip(g[0][j])
  {
    seq(|g[0]|, j requires 0 <= j < |g[0]| => Strip(g[0][j]))
  }

  function StructuredRecord(header: seq<string>, row: seq<string>): Measurement
  {
    Measurement(Get(header, row, "Date"), Get(header, row, "Serial"), Get(header, row, "OF"),
                Get(header, row, "Nom_Cote"), Get(header, row, "Mesure"), Get(header, row, "Nominal"),
                Get(header, row, "Tol\U{E9}rance_Min"), Get(header, row, "Tol\U{E9}rance_Max"))
  }

  /** The long table before validation: its column labels and its records. */
  datatype LongTable = LongTable(columns: seq<string>, records: seq<Measurement>)

  function LongTableOf(g: Grid): (t: LongTable)
    requires |g| > 0
    ensures IsRawLayout(g) ==> t.records == Reshape(g)
    ensures !IsRawLayout(g) ==> t.columns == StructuredHeader(g) && |t.records| == |g| - 1
  {
    if IsRawLayout(g) then LongTable(CanonicalColumns, Reshape(g))
    else
      var h := StructuredHeader(g);
      var rows := g[1..];
      LongTable(h, seq(|rows|, k requires 0 <= k < |rows| => StructuredRecord(h, rows[k])))
  }

  /** One cleaned row: the canonical fields and the two derived columns. */
  datatype CleanRow = CleanRow(cells: Measurement, angle: Option<real>, kind: Option<string>)

  datatype CleanError =
    | EmptyInput                          // nothing to read
    | MissingColumns(err: SchemaError)    // the column contract failed
    | NullName                            // a missing name reached the type lookup

  function NameColumn(recs: seq<Measurement>): (names: seq<string>)
    ensures |names| == |recs|
    ensures forall k :: 0 <= k < |recs| ==> names[k] == recs[k].name
  {
    seq(|recs|, k requires 0 <= k < |recs| => recs[k].name)
  }

  /** `cotes_info.get(x, {}).get("Angle_Degres", None)`; a missing name
      never equals a key, so it finds no profile. */
  function AngleOf(reg: Registry, name: string): Option<real>
  {
    if !IsNull(name) && name in reg && reg[name].angle.Val? then Some(reg[name].angle.v) else None
  }

  /** `cotes_info.get(x, {}).get("Type_Cote", detect_type(x))` for a name that
      is not missing: the stored type, none for an explicit null, the
      heuristic when the key is absent. */
  function KindOf(reg: Registry, name: string): Option<string>
  {
    if name !in reg then Some(DetectType(name))
    else match reg[name].kind
      case Absent => Some(DetectType(name))
      case Null => None
      case Val(k) => Some(k)
  }

  /** The derived columns, with a missing name given no type. */
  function Derive(reg: Registry, recs: seq<Measurement>): (rows: seq<CleanRow>)
    ensures |rows| == |recs|
    ensures forall k :: 0 <= k < |recs| ==> rows[k].cells == recs[k]
  {
    seq(|recs|, k requires 0 <= k < |recs| =>
      var n := recs[k].name;
      CleanRow(recs[k], AngleOf(reg, n), if IsNull(n) then None else KindOf(reg, n)))
  }

  /** The cleaner as written: the type fallback is evaluated for every row,
      and on a missing name it fails, after the registry was extended. */
  function CleanAsWritten(g: Grid, reg: Registry): (out: (Registry, Result<seq<CleanRow>, CleanError>))
    ensures out.1 == Err(EmptyInput) <==> |g| == 0
    ensures out.1 == Err(NullName) <==>
      |g| > 0 && CheckColumns(LongTableOf(g).columns, CanonicalColumns).None?
      && exists k :: 0 <= k < |LongTableOf(g).records| && IsNull(LongTableOf(g).records[k].name)
    ensures out.1 == Err(NullName) ==> out.0 == Extend(reg, NameColumn(LongTableOf(g).records))
    ensures out.1 != Err(NullName) ==> out == Clean(g, reg)
  {
    if |g| == 0 then (reg, Err(EmptyInput))
    else
      var t := LongTableOf(g);
      match CheckColumns(t.columns, CanonicalColumns)
      case Some(e) => (reg, Err(MissingColumns(e)))
      case None =>
        var reg2 := Extend(reg, NameColumn(t.records));
        if exists k :: 0 <= k < |t.records| && IsNull(t.records[k].name)
        then (reg2, Err(NullName))
        else (reg2, Ok(Derive(reg2, t.records)))
  }

  /** The cleaner with missing names given no type: the registry it returns
      is the old one extended with the new names, and every row carries the
      angle and type its name has there. */
  function Clean(g: Grid, reg: Registry): (out: (Registry, Result<seq<CleanRow>, CleanError>))
    ensures out.1 == Err(EmptyInput) <==> |g| == 0
    ensures out.1.Err? ==> out.0 == reg
    ensures out.1.Ok? ==> |g| > 0 && out.0 == Extend(reg, NameColumn(LongTableOf(g).records))
    ensures out.1.Ok? ==> var recs := LongTableOf(g).records;
      |out.1.value| == |recs| &&
      forall k :: 0 <= k < |recs| ==>
        out.1.value[k].cells == recs[k] &&
        out.1.value[k].angle == AngleOf(out.0, recs[k].name) &&
        (IsNull(recs[k].name) ==> out.1.value[k].kind.None?) &&
        (!IsNull(recs[k].name) ==> out.1.value[k].kind == KindOf(out.0, recs[k].name))
  {
    if |g| == 0 then (reg, Err(EmptyInput))
    else
      var t := LongTableOf(g);
      match CheckColumns(t.columns, CanonicalColumns)
      case Some(e) => (reg, Err(MissingColumns(e)))
      case None =>
        var reg2 := Extend(reg, NameColumn(t.records));
        (reg2, Ok(Derive(reg2, t.records)))
  }

  /** The column check fails exactly when a canonical column is missing from
      the structured header; the raw layout always has them all. */
  lemma ColumnContract(g: Grid, reg: Registry)
    requires |g| > 0
    ensures Clean(g, reg).1.Err? <==>
      !IsRawLayout(g) && exists c :: c in CanonicalColumns && c !in StructuredHeader(g)
    ensures Clean(g, reg).1.Err? ==>
      Clean(g, reg).1.error == MissingColumns(SchemaError(CanonicalColumns, StructuredHeader(g)))
  {
  }

  /** A new name without a stored angle gets the heuristic type and no angle;
      a name already registered keeps what the operator stored. */
  lemma NewNamesGetDefaults(g: Grid, reg: Registry, k: nat)
    requires Clean(g, reg).1.Ok?
    requires k < |LongTableOf(g).records|
    ensures var n := LongTableOf(g).records[k].name;
      var row := Clean(g, reg).1.value[k];
      (!IsNull(n) && n !in reg ==> row.kind == Some(DetectType(n)) && row.angle.None?) &&
      (!IsNull(n) && n in reg && reg[n].kind.Val? ==> row.kind == Some(reg[n].kind.v)) &&
      (!IsNull(n) && n in reg && reg[n].angle.Val? ==> row.angle == Some(reg[n].angle.v)) &&
      (IsNull(n) ==> row.kind.None? && row.angle.None?)
  {
    var n := LongTableOf(g).records[k].name;
    var reg2 := Clean(g, reg).0;
    if !IsNull(n) && n !in reg {
      assert n in NameColumn(LongTableOf(g).records);
      assert reg2[n] == DefaultProfile(n);
    }
  }

  /** Cleaning the same input a second time registers nothing new and gives
      the same rows. */
  lemma CleanTwice(g: Grid, reg: Registry)
    requires Clean(g, reg).1.Ok?
    ensures Clean(g, Clean(g, reg).0) == Clean(g, reg)
  {
    ExtendIdempotent(reg, NameColumn(LongTableOf(g).records));
  }

  /** Where no name is missing, the cleaner as written and the corrected one
      agree. */
  lemma AgreeWithoutMissingNames(g: Grid, reg: Registry)
    requires |g| > 0
    requires forall k :: 0 <= k < |LongTableOf(g).records| ==> !IsNull(LongTableOf(g).records[k].name)
    ensures CleanAsWritten(g, reg) == Clean(g, reg)
  {
  }

  /** A missing name makes the cleaner as written fail, yet the registry it
      leaves behind is already extended; the corrected cleaner succeeds. */
  lemma MissingNameFails(g: Grid, reg: Registry, k: nat)
    requires |g| > 0 && CheckColumns(LongTableOf(g).columns, CanonicalColumns).None?
    requires k < |LongTableOf(g).records| && IsNull(LongTableOf(g).records[k].name)
    ensures CleanAsWritten(g, reg).1 == Err(NullName)
    ensures CleanAsWritten(g, reg).0 == Extend(reg, NameColumn(LongTableOf(g).records))
    ensures Clean(g, reg).1.Ok?
  {
  }

  /** A concrete raw grid whose second dimension column has no name. */
  function UnnamedColumnGrid(): Grid
  {
    var header := ["", "", "", "", "", "", "", "", "", "", "", ""];
    var names := ["", "", "", "", "", "", "", "Rayon_1", "", "Diam_1", "Long_1", "Long_2"];
    var part := ["01/02/2024", "S1", "", "", "", "P", "OF1", "1", "2", "3", "4", "5"];
    [header, header, names, header, header, header, header, header, header, header,
     part, part, part]
  }

  /** On that grid the cleaner as written fails with the missing-name error. */
  lemma UnnamedColumnExample()
    ensures IsRawLayout(UnnamedColumnGrid())
    ensures CleanAsWritten(UnnamedColumnGrid(), map[]).1 == Err(NullName)
    ensures Clean(UnnamedColumnGrid(), map[]).1.Ok?
  {
    var g := UnnamedColumnGrid();
    LayoutIsShapeOnly(g);
    ReshapeShape(g);
    var recs := LongTableOf(g).records;
    assert Offset(0, DataCols(g), 1) == 1;
    assert recs[1] == RecordAt(g, 0, 1);
    assert IsNull(recs[1].name);
    MissingNameFails(g, map[], 1);
  }
}
