/** The wax/metal comparison page: each batch's cleaned table is checked and
    converted, both batches are stacked with a normalised dimension name, a
    warning is raised when the batch means of one dimension drift apart, and
    the first profile group's radius dimensions are laid out by height. */
module Comparison {
  import opened Base
  import opened Text
  import opened Sheet
  import opened Numbers
  import opened Stats
  import opened Registry
  import opened CoteType

  /** The columns converted with a decimal comma. */
  const ConvertedColumns: seq<string> :=
    ["Mesure", "Nominal", "Tol\U{E9}rance_Min", "Tol\U{E9}rance_Max"]

  // ---------------------------------------------------------------------
  // One batch
  // ---------------------------------------------------------------------

  /** A converted row with its gap `Mesure - Nominal` and its flag. */
  datatype Row = Row(
    serial: string, of: string, name: string,
    mesure: Option<real>, nominal: Option<real>, tolMin: Option<real>, tolMax: Option<real>,
    gap: Option<real>, out: bool)

  function RowOf(header: seq<string>, row: seq<string>): (r: Row)
    ensures r.gap.Some? <==> r.mesure.Some? && r.nominal.Some?
    ensures r.gap.Some? ==> r.gap.value + r.nominal.value == r.mesure.value
    ensures !r.out <==> r.mesure.Some? && r.tolMin.Some? && r.tolMax.Some?
                        && r.tolMin.value <= r.mesure.value <= r.tolMax.value
  {
    var m := NumberIn(Get(header, row, "Mesure"), true);
    var n := NumberIn(Get(header, row, "Nominal"), true);
    var lo := NumberIn(Get(header, row, "Tol\U{E9}rance_Min"), true);
    var hi := NumberIn(Get(header, row, "Tol\U{E9}rance_Max"), true);
    Row(Get(header, row, "Serial"), Get(header, row, "OF"), Get(header, row, "Nom_Cote"),
        m, n, lo, hi, Sub(m, n), OutOfTolerance(m, lo, hi))
  }

  function RowsOf(header: seq<string>, rows: seq<seq<string>>): (r: seq<Row>)
    ensures |r| == |rows|
    ensures forall i :: 0 <= i < |rows| ==> r[i] == RowOf(header, rows[i])
  {
    seq(|rows|, i requires 0 <= i < |rows| => RowOf(header, rows[i]))
  }

  /** Every cell of the four converted columns converts. */
  predicate Converts(t: Table)
  {
    forall k :: 0 <= k < |ConvertedColumns| ==> RowsRead(t.header, t.rows, ConvertedColumns[k], true)
  }

  /** `traiter_df_comparaison`: None when a column is missing or a
      conversion fails, otherwise every row converted. */
  function Process(t: Table): (r: Option<seq<Row>>)
    ensures r.Some? <==> HasColumns(t.header, CanonicalColumns) && Converts(t)
    ensures r.Some? ==> |r.value| == |t.rows|
    ensures r.Some? ==> forall i :: 0 <= i < |t.rows| ==> r.value[i] == RowOf(t.header, t.rows[i])
  {
    if CheckColumns(t.header, CanonicalColumns).Some? || !Converts(t) then None
    else Some(RowsOf(t.header, t.rows))
  }

  /** A converted row's numbers are its cells read with a decimal comma. */
  lemma ConvertedCells(t: Table, i: nat)
    requires Process(t).Some? && i < |t.rows|
    ensures forall k :: 0 <= k < |ConvertedColumns| ==>
      CellReads(Get(t.header, t.rows[i], ConvertedColumns[k]), true)
    ensures Process(t).value[i].mesure.None? <==> IsNull(Get(t.header, t.rows[i], "Mesure"))
    ensures Process(t).value[i].mesure.Some? ==>
      ParseCommaDecimal(Get(t.header, t.rows[i], "Mesure")) == Process(t).value[i].mesure
  {
    forall k | 0 <= k < |ConvertedColumns|
      ensures CellReads(Get(t.header, t.rows[i], ConvertedColumns[k]), true)
    {
      RowsReadEach(t.header, t.rows, ConvertedColumns[k], true);
    }
    assert ConvertedColumns[0] == "Mesure";
  }

  // ---------------------------------------------------------------------
  // Both batches
  // ---------------------------------------------------------------------

  datatype Batch = Metal | Wax

  /** A row of the stacked table: the row, its normalised name and its batch. */
  datatype Tagged = Tagged(row: Row, key: string, batch: Batch)

  const WaxPrefix: string := "Cire_"

  /** The wax name with every "Cire_" removed. */
  function WaxKey(name: string): string
  {
    ReplaceAll(name, WaxPrefix, "")
  }

  /** The normalised name: wax names lose "Cire_", metal names are kept. */
  function KeyFor(name: string, b: Batch): string
  {
    if b == Wax then WaxKey(name) else name
  }

  function TagAll(rows: seq<Row>, b: Batch): (r: seq<Tagged>)
    ensures |r| == |rows|
    ensures forall i :: 0 <= i < |rows| ==>
      r[i] == Tagged(rows[i], KeyFor(rows[i].name, b), b)
  {
    seq(|rows|, i requires 0 <= i < |rows| =>
      Tagged(rows[i], KeyFor(rows[i].name, b), b))
  }

  /** `preparer_donnees_comparaison`: the metal rows, then the wax rows. */
  function Prepare(metal: seq<Row>, wax: seq<Row>): (r: seq<Tagged>)
    ensures |r| == |metal| + |wax|
    ensures forall i :: 0 <= i < |r| ==> (r[i].batch == Metal <==> i < |metal|)
  {
    TagAll(metal, Metal) + TagAll(wax, Wax)
  }

  /** The rows of one batch, in order. */
  function RowsOfBatch(ts: seq<Tagged>, b: Batch): seq<Row>
    decreases |ts|
  {
    if |ts| == 0 then []
    else RowsOfBatch(ts[..|ts| - 1], b) + (if ts[|ts| - 1].batch == b then [ts[|ts| - 1].row] else [])
  }

  lemma {:induction false} RowsOfBatchAppend(a: seq<Tagged>, c: seq<Tagged>, b: Batch)
    ensures RowsOfBatch(a + c, b) == RowsOfBatch(a, b) + RowsOfBatch(c, b)
    decreases |c|
  {
    if |c| == 0 {
      assert a + c == a;
    } else {
      var n := |c| - 1;
      assert (a + c)[..|a| + n] == a + c[..n];
      RowsOfBatchAppend(a, c[..n], b);
    }
  }

  lemma {:induction false} RowsOfTagAll(rows: seq<Row>, b: Batch)
    ensures RowsOfBatch(TagAll(rows, b), b) == rows
    decreases |rows|
  {
    if |rows| > 0 {
      var n := |rows| - 1;
      var t := TagAll(rows, b);
      assert t[..n] == TagAll(rows[..n], b);
      assert t[n].batch == b && t[n].row == rows[n];
      RowsOfTagAll(rows[..n], b);
      assert RowsOfBatch(t, b) == RowsOfBatch(t[..n], b) + [rows[n]];
      assert rows == rows[..n] + [rows[n]];
    }
  }

  lemma {:induction false} RowsOfTagAllOther(rows: seq<Row>, b: Batch, other: Batch)
    requires other != b
    ensures RowsOfBatch(TagAll(rows, b), other) == []
    decreases |rows|
  {
    if |rows| > 0 {
      var n := |rows| - 1;
      var t := TagAll(rows, b);
      assert t[..n] == TagAll(rows[..n], b);
      assert t[n].batch == b;
      RowsOfTagAllOther(rows[..n], b, other);
      assert RowsOfBatch(t, other) == RowsOfBatch(t[..n], other);
    }
  }

  /** Stacking loses nothing: each batch reads back as given. */
  lemma PrepareSplits(metal: seq<Row>, wax: seq<Row>)
    ensures RowsOfBatch(Prepare(metal, wax), Metal) == metal
    ensures RowsOfBatch(Prepare(metal, wax), Wax) == wax
  {
    RowsOfBatchAppend(TagAll(metal, Metal), TagAll(wax, Wax), Metal);
    RowsOfBatchAppend(TagAll(metal, Metal), TagAll(wax, Wax), Wax);
    RowsOfTagAll(metal, Metal);
    RowsOfTagAllOther(metal, Metal, Wax);
    RowsOfTagAll(wax, Wax);
    RowsOfTagAllOther(wax, Wax, Metal);
  }

  /** A metal row keeps its name; a wax name without "Cire_" is unchanged and
      a leading "Cire_" is dropped. */
  lemma WaxKeyExamples(n: string)
    requires !Contains(n, WaxPrefix)
    ensures WaxKey(n) == n
    ensures WaxKey(WaxPrefix + n) == n
  {
    ReplaceAllAbsent(n, WaxPrefix, "");
    ReplaceAllAtFront(WaxPrefix, n, "");
  }

  /** "Cire_" is removed wherever it stands, not only at the front. */
  lemma WaxKeyInside(a: string, n: string)
    requires forall i :: 0 <= i < |a| ==> a[i] != 'C'
    requires !Contains(n, WaxPrefix)
    ensures WaxKey(a + WaxPrefix + n) == a + n
  {
    assert a + WaxPrefix + n == a + (WaxPrefix + n);
    ReplaceAllSkipsPrefix(a, WaxPrefix + n, WaxPrefix, "");
    WaxKeyExamples(n);
  }

  // ---------------------------------------------------------------------
  // Mean-gap warning
  // ---------------------------------------------------------------------

  const GapThreshold: real := 0.05

  /** The measures of one batch's rows with the given normalised name. */
  function Measures(ts: seq<Tagged>, key: string, b: Batch): (r: seq<Option<real>>)
    ensures |r| <= |ts|
    decreases |ts|
  {
    if |ts| == 0 then []
    else
      var t := ts[|ts| - 1];
      Measures(ts[..|ts| - 1], key, b) + (if t.key == key && t.batch == b then [t.row.mesure] else [])
  }

  /** The measures averaged are those of the batch's rows with that name,
      and no others. */
  lemma {:induction false} MeasuresSpec(ts: seq<Tagged>, key: string, b: Batch)
    ensures forall i :: 0 <= i < |ts| && ts[i].key == key && ts[i].batch == b ==>
      ts[i].row.mesure in Measures(ts, key, b)
    ensures forall v :: v in Measures(ts, key, b) ==>
      exists i :: 0 <= i < |ts| && ts[i].key == key && ts[i].batch == b && ts[i].row.mesure == v
    decreases |ts|
  {
    if |ts| > 0 {
      var n := |ts| - 1;
      MeasuresSpec(ts[..n], key, b);
      assert forall i :: 0 <= i < n ==> ts[..n][i] == ts[i];
    }
  }

  /** Which rows belong to `b` under the normalised name `key`. */
  function MatchMarks(ts: seq<Tagged>, key: string, b: Batch): (m: seq<bool>)
    ensures |m| == |ts| && forall i :: 0 <= i < |ts| ==> m[i] == (ts[i].key == key && ts[i].batch == b)
  {
    seq(|ts|, i requires 0 <= i < |ts| => ts[i].key == key && ts[i].batch == b)
  }

  function MesuresOf(ts: seq<Tagged>): (r: seq<Option<real>>)
    ensures |r| == |ts| && forall i :: 0 <= i < |ts| ==> r[i] == ts[i].row.mesure
  {
    seq(|ts|, i requires 0 <= i < |ts| => ts[i].row.mesure)
  }

  /** Each matching row contributes its measure exactly once, in table
      order, so repeated readings weigh in the mean as often as they occur. */
  lemma {:induction false} MeasuresSelects(ts: seq<Tagged>, key: string, b: Batch)
    ensures exists idx :: SelectedAt(MesuresOf(ts), MatchMarks(ts, key, b), idx, Measures(ts, key, b))
    decreases |ts|
  {
    if |ts| == 0 {
      assert Measures(ts, key, b) == [];
      assert SelectedAt(MesuresOf(ts), MatchMarks(ts, key, b), [], []);
    } else {
      var n := |ts| - 1;
      var pre := ts[..n];
      var t := ts[n];
      var m := t.key == key && t.batch == b;
      assert ts == pre + [t];
      assert Measures(ts, key, b) == Measures(pre, key, b) + (if m then [t.row.mesure] else []);
      MeasuresSelects(pre, key, b);
      var idx :| SelectedAt(MesuresOf(pre), MatchMarks(pre, key, b), idx, Measures(pre, key, b));
      SelectedAtAppend(MesuresOf(pre), MatchMarks(pre, key, b), idx, Measures(pre, key, b), t.row.mesure, m);
      assert MesuresOf(pre) + [t.row.mesure] == MesuresOf(ts);
      assert MatchMarks(pre, key, b) + [m] == MatchMarks(ts, key, b);
    }
  }

  /** Two batch means more than the threshold apart; a missing mean never
      warns, because NaN compares false. */
  predicate MeansDrift(a: Option<real>, c: Option<real>)
  {
    a.Some? && c.Some? && Abs(a.value - c.value) > GapThreshold
  }

  /** The warning for one normalised name: both batches have rows for it and
      their mean measures differ by more than 0.05 mm. */
  predicate GapWarning(ts: seq<Tagged>, key: string)
  {
    var m := Measures(ts, key, Metal);
    var w := Measures(ts, key, Wax);
    |m| > 0 && |w| > 0 && MeansDrift(MeanOf(m), MeanOf(w))
  }

  /** The drift test is symmetric and strict. */
  lemma DriftSymmetricStrict(a: real, c: real)
    ensures MeansDrift(Some(a), Some(c)) <==> MeansDrift(Some(c), Some(a))
    ensures MeansDrift(Some(a), Some(c)) <==> a - c > GapThreshold || c - a > GapThreshold
    ensures !MeansDrift(Some(a + GapThreshold), Some(a))
  {
  }

  function SwapBatch(b: Batch): Batch
  {
    if b == Metal then Wax else Metal
  }

  function Swap(ts: seq<Tagged>): (r: seq<Tagged>)
    ensures |r| == |ts|
    ensures forall i :: 0 <= i < |ts| ==> r[i] == ts[i].(batch := SwapBatch(ts[i].batch))
  {
    seq(|ts|, i requires 0 <= i < |ts| => ts[i].(batch := SwapBatch(ts[i].batch)))
  }

  lemma {:induction false} MeasuresSwap(ts: seq<Tagged>, key: string, b: Batch)
    ensures Measures(Swap(ts), key, SwapBatch(b)) == Measures(ts, key, b)
    decreases |ts|
  {
    if |ts| > 0 {
      var n := |ts| - 1;
      assert Swap(ts)[..n] == Swap(ts[..n]);
      MeasuresSwap(ts[..n], key, b);
    }
  }

  /** The warning does not depend on which batch is called metal. */
  lemma GapWarningSwap(ts: seq<Tagged>, key: string)
    ensures GapWarning(Swap(ts), key) == GapWarning(ts, key)
  {
    MeasuresSwap(ts, key, Metal);
    MeasuresSwap(ts, key, Wax);
    var a := MeanOf(Measures(ts, key, Metal));
    var c := MeanOf(Measures(ts, key, Wax));
    if a.Some? && c.Some? {
      DriftSymmetricStrict(a.value, c.value);
    }
  }

  function MeasuredRow(name: string, v: real): Row
  {
    Row("", "", name, Some(v), Some(10.0), Some(9.9), Some(10.1), Some(v - 10.0), false)
  }

  /** One metal row at 10.10 and one wax row at 10.02 for the same dimension
      warn: the means are 0.08 mm apart. */
  lemma GapWarningExample(name: string)
    requires !Contains(name, WaxPrefix)
    ensures GapWarning(Prepare([MeasuredRow(name, 10.10)], [MeasuredRow(WaxPrefix + name, 10.02)]), name)
  {
    var m := MeasuredRow(name, 10.10);
    var w := MeasuredRow(WaxPrefix + name, 10.02);
    WaxKeyExamples(name);
    var ts := [Tagged(m, name, Metal), Tagged(w, name, Wax)];
    assert Prepare([m], [w]) == ts;
    MeasuresOfPair(ts[0], ts[1], name, Metal);
    MeasuresOfPair(ts[0], ts[1], name, Wax);
    var a := Measures(ts, name, Metal);
    var c := Measures(ts, name, Wax);
    assert a == [Some(10.10)];
    assert c == [Some(10.02)];
    MeanOfOne(10.10);
    MeanOfOne(10.02);
    assert Abs(10.10 - 10.02) == 0.08;
    assert MeansDrift(MeanOf(a), MeanOf(c));
  }

  lemma MeasuresOfPair(x: Tagged, y: Tagged, key: string, b: Batch)
    ensures Measures([x, y], key, b)
      == (if x.key == key && x.batch == b then [x.row.mesure] else [])
       + (if y.key == key && y.batch == b then [y.row.mesure] else [])
  {
    assert [x, y][..1] == [x];
    assert [x][..0] == [];
  }

  lemma MeanOfOne(v: real)
    ensures MeanOf([Some(v)]) == Some(v)
  {
    assert [Some(v)][..0] == [];
    assert Present([Some(v)]) == [v];
    assert [v][..0] == [];
    assert Sum([v]) == Sum([v][..0]) + v;
    assert Sum([v]) == v;
  }

  // ---------------------------------------------------------------------
  // Profile view of the first group
  // ---------------------------------------------------------------------

  /** `nettoyer_nom_cote`: "Cire_" removed, decimal points turned into commas,
      surrounding whitespace trimmed. */
  function CleanName(s: string): string
  {
    Strip(ReplaceAll(WaxKey(s), ".", ","))
  }

  /** A cleaned name never holds a decimal point. */
  lemma CleanNameHasNoPoint(s: string)
    ensures !Contains(CleanName(s), ".")
  {
    var y := ReplaceAll(WaxKey(s), ".", ",");
    ReplacedCharGone(WaxKey(s), '.', ',');
    ReplaceOneChar(WaxKey(s), '.', ',');
    StripSpec(y);
    var r := CleanName(s);
    forall i | 0 <= i < |r| ensures r[i] != '.' {
      assert r[i] == y[StripStart(y) + i];
    }
    NoFirstCharNoContains(r, ".");
  }

  /** Cleaning is idempotent on every name whose cleaned form holds no
      "Cire_". */
  lemma CleanNameIdempotent(s: string)
    requires !Contains(CleanName(s), WaxPrefix)
    ensures CleanName(CleanName(s)) == CleanName(s)
  {
    var c := CleanName(s);
    ReplaceAllAbsent(c, WaxPrefix, "");
    CleanNameHasNoPoint(s);
    ReplaceAllAbsent(c, ".", ",");
    StripIdempotent(ReplaceAll(WaxKey(s), ".", ","));
  }

  /** Removing "Cire_" can create a new "Cire_", so cleaning is not
      idempotent in general: "CiCire_re_" cleans to "Cire_", which cleans to
      "". */
  lemma CleanNameNotIdempotent()
    ensures CleanName("CiCire_re_") == "Cire_"
    ensures CleanName("Cire_") == ""
  {
    CleanNestedPrefix();
    CleanPrefix();
  }

  lemma CleanNestedPrefix()
    ensures CleanName("CiCire_re_") == "Cire_"
  {
    NestedPrefixKey();
    NoFirstCharNoContains("Cire_", ".");
    CleanNameOfKey("CiCire_re_", "Cire_");
  }

  /** A name whose key holds no point and no surrounding whitespace cleans
      to its key. */
  lemma CleanNameOfKey(s: string, k: string)
    requires WaxKey(s) == k && !Contains(k, ".")
    requires |k| > 0 ==> !IsSpace(k[0]) && !IsSpace(k[|k| - 1])
    ensures CleanName(s) == k
  {
    ReplaceAllAbsent(k, ".", ",");
    StripUnchanged(k);
  }

  lemma CleanPrefix()
    ensures CleanName("Cire_") == ""
  {
    PrefixKey();
    assert ReplaceAll("", ".", ",") == "";
    assert Strip("") == "";
  }

  lemma NestedPrefixKey()
    ensures WaxKey("CiCire_re_") == "Cire_"
  {
    var s := "CiCire_re_";
    var t := "iCire_re_";
    assert !StartsWith(s, WaxPrefix) by {
      assert s[..5][2] == 'C' && WaxPrefix[2] == 'r';
    }
    assert s[1..] == t;
    assert ReplaceAll(s, WaxPrefix, "") == [s[0]] + ReplaceAll(t, WaxPrefix, "");
    assert t == "i" + "Cire_re_";
    ReplaceAllSkipsPrefix("i", "Cire_re_", WaxPrefix, "");
    assert WaxPrefix + "re_" == "Cire_re_";
    ReplaceAllAtFront(WaxPrefix, "re_", "");
    ShortNeverContains("re_", WaxPrefix);
    ReplaceAllAbsent("re_", WaxPrefix, "");
  }

  lemma PrefixKey()
    ensures WaxKey("Cire_") == ""
  {
    assert WaxPrefix + "" == "Cire_";
    ReplaceAllAtFront(WaxPrefix, "", "");
  }

  /** The radius members of the first group; a registered member whose
      profile lacks "Type_Cote" stops the page (a missing key). */
  function RayonMembers(group: seq<string>, reg: Registry): (r: Option<seq<string>>)
    ensures r.None? <==> exists i :: 0 <= i < |group| && group[i] in reg && reg[group[i]].kind.Absent?
    ensures r.Some? ==> forall c :: c in r.value <==> c in group && c in reg && reg[c].kind == Val(Rayon)
    decreases |group|
  {
    if |group| == 0 then Some([])
    else
      var n := |group| - 1;
      var c := group[n];
      assert forall i :: 0 <= i < n ==> group[..n][i] == group[i];
      assert forall x :: x in group <==> x in group[..n] || x == c;
      match RayonMembers(group[..n], reg)
      case None => None
      case Some(pre) =>
        if c in reg && reg[c].kind.Absent? then None
        else Some(pre + (if c in reg && reg[c].kind == Val(Rayon) then [c] else []))
  }

  /** `{cote: i * 50 for i, cote in enumerate(members)}`: a later duplicate
      overwrites an earlier one. */
  function Heights(members: seq<string>): (h: map<string, int>)
    ensures h.Keys == set c | c in members
    decreases |members|
  {
    if |members| == 0 then map[]
    else
      var n := |members| - 1;
      assert forall x :: x in members <==> x in members[..n] || x == members[n];
      Heights(members[..n])[members[n] := 50 * n]
  }

  /** Distinct members sit 50 apart, in order. */
  lemma {:induction false} HeightsOfDistinct(members: seq<string>)
    requires forall i, j :: 0 <= i < j < |members| ==> members[i] != members[j]
    ensures forall i :: 0 <= i < |members| ==> Heights(members)[members[i]] == 50 * i
    decreases |members|
  {
    if |members| > 0 {
      var n := |members| - 1;
      HeightsOfDistinct(members[..n]);
      forall i | 0 <= i < |members| ensures Heights(members)[members[i]] == 50 * i {
        if i < n {
          assert members[..n][i] == members[i];
          assert members[i] != members[n];
        }
      }
    }
  }

  datatype ProfileView =
    | NoGroup                          // no profile group is defined
    | MissingType                      // a member has no "Type_Cote"
    | TooFewRadii(members: seq<string>) // fewer than two radius members
    | Laid(members: seq<string>, heights: map<string, int>)

  /** The profile view of the first group. */
  function ProfileOf(groups: seq<seq<string>>, reg: Registry): (v: ProfileView)
    ensures v.NoGroup? <==> |groups| == 0
    ensures v.Laid? ==> |v.members| >= 2 && v.heights.Keys == set c | c in v.members
    ensures v.Laid? ==> forall c :: c in v.members <==> c in groups[0] && c in reg && reg[c].kind == Val(Rayon)
  {
    if |groups| == 0 then NoGroup
    else match RayonMembers(groups[0], reg)
      case None => MissingType
      case Some(ms) => if |ms| < 2 then TooFewRadii(ms) else Laid(ms, Heights(ms))
  }

  /** Half the width of the visual band drawn around each nominal. */
  const BandHalfWidth: real := 0.5

  /** A point of the profile chart: a stacked row, its height, its visual
      band around the nominal and its gap. */
  datatype ProfilePoint = ProfilePoint(
    tagged: Tagged, height: int, bandLow: Option<real>, bandHigh: Option<real>, gap: Option<real>)

  /** The key of a row on the profile chart: the cleaned text of its name. */
  function ProfileKey(row: Row): string
  {
    CleanName(Str(row.name))
  }

  /** Whether a row belongs to the chart: its order is the selected one (a
      missing order equals nothing) and its key is a radius member. */
  predicate Picked(row: Row, of: string, members: seq<string>)
  {
    !IsNull(row.of) && row.of == of && ProfileKey(row) in members
  }

  /** The picked rows of one batch, in order, with their keys. */
  function Chosen(rows: seq<Row>, of: string, b: Batch, members: seq<string>): (r: seq<Tagged>)
    ensures forall t :: t in r ==>
      t.batch == b && t.row in rows && Picked(t.row, of, members) && t.key == ProfileKey(t.row)
    ensures forall i :: 0 <= i < |rows| && Picked(rows[i], of, members) ==>
      Tagged(rows[i], ProfileKey(rows[i]), b) in r
    decreases |rows|
  {
    if |rows| == 0 then []
    else
      var n := |rows| - 1;
      assert forall i :: 0 <= i < n ==> rows[..n][i] == rows[i];
      Chosen(rows[..n], of, b, members)
        + (if Picked(rows[n], of, members) then [Tagged(rows[n], ProfileKey(rows[n]), b)] else [])
  }

  /** The band is the nominal plus or minus the half-width, and the gap is
      `Mesure - Nominal`, each missing when its inputs are. */
  predicate BandAround(p: ProfilePoint)
  {
    var row := p.tagged.row;
    && (p.bandLow.Some? <==> row.nominal.Some?)
    && (p.bandHigh.Some? <==> row.nominal.Some?)
    && (p.bandLow.Some? ==> p.bandLow.value + BandHalfWidth == row.nominal.value
                            && p.bandHigh.value - BandHalfWidth == row.nominal.value)
    && (p.gap.Some? <==> row.mesure.Some? && row.nominal.Some?)
    && (p.gap.Some? ==> p.gap.value + row.nominal.value == row.mesure.value)
  }

  function Shift(v: Option<real>, d: real): Option<real>
  {
    if v.Some? then Some(v.value + d) else None
  }

  /** `Tol_min`, `Tol_max` and `Écart` of one chart row. */
  function Place(t: Tagged, heights: map<string, int>): (p: ProfilePoint)
    requires t.key in heights
    ensures p.tagged == t && p.height == heights[t.key]
    ensures BandAround(p)
  {
    ProfilePoint(t, heights[t.key], Shift(t.row.nominal, -BandHalfWidth),
                 Shift(t.row.nominal, BandHalfWidth), Sub(t.row.mesure, t.row.nominal))
  }

  function PlaceAll(ts: seq<Tagged>, heights: map<string, int>): (r: seq<ProfilePoint>)
    requires forall t :: t in ts ==> t.key in heights
    ensures |r| == |ts|
    ensures forall i :: 0 <= i < |ts| ==> r[i].tagged == ts[i] && r[i].height == heights[ts[i].key]
    ensures forall p :: p in r ==> BandAround(p)
  {
    seq(|ts|, i requires 0 <= i < |ts| => Place(ts[i], heights))
  }

  /** The profile table: the wax rows of the selected wax order stacked above
      the metal rows of the selected metal order, restricted to the radius
      members, each placed at its member's height with a band of half-width
      0.5 around its nominal. */
  function ProfileTable(metal: seq<Row>, wax: seq<Row>, ofMetal: string, ofWax: string,
                        members: seq<string>): (r: seq<ProfilePoint>)
    ensures forall p :: p in r ==>
      && p.tagged.key == ProfileKey(p.tagged.row) && p.tagged.key in members
      && p.height == Heights(members)[p.tagged.key]
      && (p.tagged.batch == Wax ==> p.tagged.row in wax && Picked(p.tagged.row, ofWax, members))
      && (p.tagged.batch == Metal ==> p.tagged.row in metal && Picked(p.tagged.row, ofMetal, members))
    ensures forall p :: p in r ==> BandAround(p)
    ensures forall i, j :: 0 <= i < j < |r| && r[i].tagged.batch == Metal ==> r[j].tagged.batch == Metal
    ensures forall i :: 0 <= i < |wax| && Picked(wax[i], ofWax, members) ==>
      exists p :: p in r && p.tagged == Tagged(wax[i], ProfileKey(wax[i]), Wax)
    ensures forall i :: 0 <= i < |metal| && Picked(metal[i], ofMetal, members) ==>
      exists p :: p in r && p.tagged == Tagged(metal[i], ProfileKey(metal[i]), Metal)
  {
    var h := Heights(members);
    var w := Chosen(wax, ofWax, Wax, members);
    var m := Chosen(metal, ofMetal, Metal, members);
    var pw := PlaceAll(w, h);
    var pm := PlaceAll(m, h);
    assert forall i :: 0 <= i < |pw| ==> pw[i] in pw;
    assert forall i :: 0 <= i < |pm| ==> pm[i] in pm;
    pw + pm
  }
}
