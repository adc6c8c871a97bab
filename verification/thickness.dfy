/** The data part of the thickness analysis: the required columns are
    checked, rows without a position get evenly spread ones per dimension,
    and each row gets its deviation and its beyond-tolerance flag. */
module Thickness {
  import opened Base
  import opened Sheet
  import opened Stats

  const RequiredColumns: seq<string> :=
    ["Nom_Cote", "Mesure", "Nominal", "Tol\U{E9}rance_Min", "Tol\U{E9}rance_Max"]

  /** One row of the long table; `position` is only read when the table has
      a Position column, and an empty name is a missing one. */
  datatype Reading = Reading(
    name: string, mesure: Option<real>, nominal: Option<real>,
    tolMin: Option<real>, tolMax: Option<real>, position: Option<real>)

  /** A row with its position, `Écart` and `Hors_Tol`. */
  datatype Located = Located(reading: Reading, position: Option<real>, gap: Option<real>, beyond: bool)

  // ---------------------------------------------------------------------
  // Synthetic positions
  // ---------------------------------------------------------------------

  /** How many times `n` occurs in `names`. */
  function Count(names: seq<string>, n: string): (c: nat)
    ensures c <= |names|
    decreases |names|
  {
    if |names| == 0 then 0
    else Count(names[..|names| - 1], n) + (if names[|names| - 1] == n then 1 else 0)
  }

  /** Entry `k` of `np.linspace(0, 100, m)`. */
  function Spread(k: nat, m: nat): real
    requires k < m
  {
    if m == 1 then 0.0 else 100.0 * k as real / (m - 1) as real
  }

  /** The `k`-th row of a dimension among its `m` rows is `k` steps of
      `100 / (m - 1)` from 0: the first is at 0, the last at 100, and all lie
      between. */
  lemma SpreadRange(k: nat, m: nat)
    requires k < m
    ensures 0.0 <= Spread(k, m) <= 100.0
    ensures k == 0 ==> Spread(k, m) == 0.0
    ensures m > 1 && k == m - 1 ==> Spread(k, m) == 100.0
  {
    if m > 1 {
      assert k as real <= (m - 1) as real;
      DivMul(100.0 * k as real, (m - 1) as real);
    }
  }

  /** Later rows of a dimension lie further along. */
  lemma SpreadIncreasing(k: nat, l: nat, m: nat)
    requires k < l < m
    ensures Spread(k, m) < Spread(l, m)
  {
    var d := (m - 1) as real;
    assert 100.0 * k as real < 100.0 * l as real;
    DivStrict(100.0 * k as real, 100.0 * l as real, d);
  }

  lemma DivStrict(a: real, b: real, d: real)
    requires a < b && d > 0.0
    ensures a / d < b / d
  {
    assert b / d - a / d == (b - a) / d;
  }

  /** Row `i`'s rank among the rows of its dimension. */
  function Rank(names: seq<string>, i: nat): nat
    requires i < |names|
  {
    Count(names[..i], names[i])
  }

  lemma {:induction false} CountPrefixGrows(names: seq<string>, a: nat, b: nat, n: string)
    requires a <= b <= |names|
    ensures Count(names[..a], n) <= Count(names[..b], n)
    decreases b - a
  {
    if a < b {
      CountPrefixGrows(names, a, b - 1, n);
      assert names[..b][..b - 1] == names[..b - 1];
    }
  }

  /** Each row's rank is below its dimension's row count, and ranks grow
      along the table. */
  lemma RankBounds(names: seq<string>, i: nat, j: nat)
    requires i < j < |names| && names[i] == names[j]
    ensures Rank(names, i) < Rank(names, j) < Count(names, names[j])
  {
    CountStep(names, i, names[i]);
    CountPrefixGrows(names, i + 1, j, names[i]);
    RankBelowCount(names, j);
  }

  lemma RankBelowCount(names: seq<string>, i: nat)
    requires i < |names|
    ensures Rank(names, i) < Count(names, names[i])
  {
    CountStep(names, i, names[i]);
    CountPrefixGrows(names, i + 1, |names|, names[i]);
    assert names[..|names|] == names;
  }

  /** One more row of the prefix adds one when it has the name. */
  lemma CountStep(names: seq<string>, k: nat, n: string)
    requires k < |names|
    ensures Count(names[..k + 1], n) == Count(names[..k], n) + (if names[k] == n then 1 else 0)
  {
    assert names[..k + 1][..k] == names[..k];
  }

  /** The position each row gets: its rank spread over its dimension. */
  function Positions(names: seq<string>): (ps: seq<real>)
    ensures |ps| == |names|
  {
    seq(|names|, i requires 0 <= i < |names| =>
      RankBelowCount(names, i);
      SpreadRange(Rank(names, i), Count(names, names[i]));
      Spread(Rank(names, i), Count(names, names[i])))
  }

  /** Every position lies in [0, 100]; a dimension's first row is at 0 and,
      when it has several rows, its last is at 100. */
  lemma PositionsRange(names: seq<string>, i: nat)
    requires i < |names|
    ensures 0.0 <= Positions(names)[i] <= 100.0
    ensures (forall j :: 0 <= j < i ==> names[j] != names[i]) ==> Positions(names)[i] == 0.0
    ensures Count(names, names[i]) > 1 && (forall j :: i < j < |names| ==> names[j] != names[i]) ==>
      Positions(names)[i] == 100.0
  {
    RankBelowCount(names, i);
    SpreadRange(Rank(names, i), Count(names, names[i]));
    if forall j :: 0 <= j < i ==> names[j] != names[i] {
      NoneBefore(names[..i], names[i]);
    }
    if forall j :: i < j < |names| ==> names[j] != names[i] {
      CountSplit(names, i);
      NoneBefore(names[i + 1..], names[i]);
    }
  }

  lemma {:induction false} NoneBefore(s: seq<string>, n: string)
    requires forall j :: 0 <= j < |s| ==> s[j] != n
    ensures Count(s, n) == 0
    decreases |s|
  {
    if |s| > 0 {
      NoneBefore(s[..|s| - 1], n);
    }
  }

  /** Counting over a table splits at any row. */
  lemma CountSplit(names: seq<string>, i: nat)
    requires i < |names|
    ensures Count(names, names[i]) == Count(names[..i], names[i]) + 1 + Count(names[i + 1..], names[i])
  {
    CountAppend(names[..i + 1], names[i + 1..], names[i]);
    assert names[..i + 1] + names[i + 1..] == names;
    assert names[..i + 1][..i] == names[..i];
  }

  lemma {:induction false} CountAppend(a: seq<string>, b: seq<string>, n: string)
    ensures Count(a + b, n) == Count(a, n) + Count(b, n)
    decreases |b|
  {
    if |b| == 0 {
      assert a + b == a;
    } else {
      CountAppend(a, b[..|b| - 1], n);
      assert (a + b)[..|a + b| - 1] == a + b[..|b| - 1];
    }
  }

  /** Within one dimension the positions strictly increase in table order,
      starting at 0 and ending at 100. */
  lemma PositionsAscend(names: seq<string>, i: nat, j: nat)
    requires i < j < |names| && names[i] == names[j]
    ensures Positions(names)[i] < Positions(names)[j]
  {
    RankBounds(names, i, j);
    SpreadIncreasing(Rank(names, i), Rank(names, j), Count(names, names[j]));
  }

  /** `list(np.linspace(0, 100, m))`. */
  function LinSpace(m: nat): (r: seq<real>)
    ensures |r| == m && forall k :: 0 <= k < m ==> r[k] == Spread(k, m)
  {
    seq(m, k requires 0 <= k < m => Spread(k, m))
  }

  /** After `i` rows, every dimension's list holds the spread positions its
      rows have not yet taken. */
  predicate Remaining(names: seq<string>, i: nat, lists: map<string, seq<real>>)
    requires i <= |names|
  {
    forall n :: n in names ==>
      n in lists && Count(names[..i], n) <= Count(names, n)
      && lists[n] == LinSpace(Count(names, n))[Count(names[..i], n)..]
  }

  /** Row `i` finds its position at the front of its list, and popping it
      leaves the lists of the next row. */
  lemma PopStep(names: seq<string>, i: nat, lists: map<string, seq<real>>)
    requires i < |names| && Remaining(names, i, lists)
    ensures |lists[names[i]]| > 0 && lists[names[i]][0] == Positions(names)[i]
    ensures Remaining(names, i + 1, lists[names[i] := lists[names[i]][1..]])
  {
    var n := names[i];
    RankBelowCount(names, i);
    var lists2 := lists[n := lists[n][1..]];
    forall m | m in names
      ensures m in lists2 && Count(names[..i + 1], m) <= Count(names, m)
      ensures lists2[m] == LinSpace(Count(names, m))[Count(names[..i + 1], m)..]
    {
      CountStep(names, i, m);
    }
  }

  lemma PrefixStep(s: seq<real>, i: nat)
    requires i < |s|
    ensures s[..i + 1] == s[..i] + [s[i]]
  {
  }

  /** `position_mapping` before the first row: each dimension's full list. */
  function StartLists(names: seq<string>): (lists: map<string, seq<real>>)
    ensures Remaining(names, 0, lists)
  {
    assert names[..0] == [];
    map n | n in names :: LinSpace(Count(names, n))
  }

  /** `position_mapping[name].pop(0)` row by row: every dimension starts with
      the spread list of its row count, and each row takes the front of its
      own list. */
  method AssignPositions(names: seq<string>) returns (ps: seq<real>)
    ensures ps == Positions(names)
  {
    var lists := StartLists(names);
    ps := [];
    var i := 0;
    while i < |names|
      invariant 0 <= i <= |names|
      invariant Remaining(names, i, lists)
      invariant ps == Positions(names)[..i]
    {
      var n := names[i];
      PopStep(names, i, lists);
      PrefixStep(Positions(names), i);
      ps := ps + [lists[n][0]];
      lists := lists[n := lists[n][1..]];
      i := i + 1;
    }
    assert Positions(names)[..|names|] == Positions(names);
  }

  // ---------------------------------------------------------------------
  // The analysis
  // ---------------------------------------------------------------------

  datatype Outcome =
    | MissingColumns                 // the table is left as it is
    | EmptyWithoutPosition           // an empty table gets no Position column
    | UnnamedRow                     // a row without a name has no position list
    | Done(rows: seq<Located>)

  function Names(rows: seq<Reading>): (r: seq<string>)
    ensures |r| == |rows| && forall i :: 0 <= i < |rows| ==> r[i] == rows[i].name
  {
    seq(|rows|, i requires 0 <= i < |rows| => rows[i].name)
  }

  function LocatedOf(row: Reading, position: Option<real>): (l: Located)
    ensures l.gap.Some? <==> row.mesure.Some? && row.nominal.Some?
    ensures l.gap.Some? ==> l.gap.value + row.nominal.value == row.mesure.value
    ensures row.mesure.Some? && row.tolMin.Some? && row.tolMax.Some? ==>
      (l.beyond <==> !(row.tolMin.value <= row.mesure.value <= row.tolMax.value))
  {
    BeyondIffOutOfTolerance(row.mesure, row.tolMin, row.tolMax);
    Located(row, position, Sub(row.mesure, row.nominal), Beyond(row.mesure, row.tolMin, row.tolMax))
  }

  predicate HasUnnamed(rows: seq<Reading>)
  {
    exists i :: 0 <= i < |rows| && IsNull(rows[i].name)
  }

  /** `analyser_epaisseurs` up to the charts. Without a Position column two
      inputs stop the page: a row with a missing name, since NaN's own
      position list is empty and taking from it fails; and a table without
      rows, since pandas' row-wise apply then returns a whole (empty) frame,
      which cannot be stored as the single Position column. */
  function Analyse(header: seq<string>, rows: seq<Reading>): (r: Outcome)
    ensures r.MissingColumns? <==> !HasColumns(header, RequiredColumns)
    ensures r.EmptyWithoutPosition? <==> HasColumns(header, RequiredColumns) && "Position" !in header && |rows| == 0
    ensures r.UnnamedRow? <==> HasColumns(header, RequiredColumns) && "Position" !in header && HasUnnamed(rows)
    ensures r.Done? ==> |r.rows| == |rows|
    ensures r.Done? ==> forall i :: 0 <= i < |rows| ==> r.rows[i].reading == rows[i]
    ensures r.Done? && "Position" in header ==> forall i :: 0 <= i < |rows| ==> r.rows[i].position == rows[i].position
    ensures r.Done? && "Position" !in header ==>
      forall i :: 0 <= i < |rows| ==> r.rows[i].position == Some(Positions(Names(rows))[i])
  {
    if !HasColumns(header, RequiredColumns) then MissingColumns
    else if "Position" in header then
      Done(seq(|rows|, i requires 0 <= i < |rows| => LocatedOf(rows[i], rows[i].position)))
    else if |rows| == 0 then EmptyWithoutPosition
    else if HasUnnamed(rows) then UnnamedRow
    else
      var ps := Positions(Names(rows));
      Done(seq(|rows|, i requires 0 <= i < |rows| => LocatedOf(rows[i], Some(ps[i]))))
  }
}
