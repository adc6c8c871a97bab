/** The data behind the radius analysis: the cleaned long table of one
    profile is optionally narrowed to one manufacturing order, a shared
    ascending angle axis is built, each dimension gets a value per axis
    angle, the deviation bars of one angle are computed, and the groups with
    enough members get a closed radar polygon. */
module Radar {
  import opened Base
  import opened Sheet
  import opened Stats
  import opened Registry
  import opened Sorting

  /** One row of the long table, as used here; an empty `of` or `name` is a
      missing value. */
  datatype Reading = Reading(
    of: string, name: string, angle: Option<real>, mesure: Option<real>,
    nominal: Option<real>, tolMin: Option<real>, tolMax: Option<real>, height: Option<real>)

  // ---------------------------------------------------------------------
  // Manufacturing-order filter
  // ---------------------------------------------------------------------

  /** `df["OF"].dropna().unique()`: the orders present, in order of first
      appearance. */
  function OrdersOf(rows: seq<Reading>): (r: seq<string>)
    ensures forall i, j :: 0 <= i < j < |r| ==> r[i] != r[j]
    ensures forall o :: o in r <==> !IsNull(o) && exists i :: 0 <= i < |rows| && rows[i].of == o
    decreases |rows|
  {
    if |rows| == 0 then []
    else
      var n := |rows| - 1;
      var pre := OrdersOf(rows[..n]);
      assert forall i :: 0 <= i < n ==> rows[..n][i] == rows[i];
      if IsNull(rows[n].of) || rows[n].of in pre then pre else pre + [rows[n].of]
  }

  /** `df[df["OF"] == selected]`, order kept. */
  function RowsOfOrder(rows: seq<Reading>, selected: string): (r: seq<Reading>)
    ensures forall x :: x in r <==> x in rows && x.of == selected
    ensures |r| <= |rows|
    decreases |rows|
  {
    if |rows| == 0 then []
    else
      var n := |rows| - 1;
      assert rows == rows[..n] + [rows[n]];
      RowsOfOrder(rows[..n], selected) + (if rows[n].of == selected then [rows[n]] else [])
  }

  /** The rows analysed: narrowed to the chosen order only when the table
      holds more than one. */
  function Scope(rows: seq<Reading>, selected: string): (r: seq<Reading>)
    ensures |OrdersOf(rows)| <= 1 ==> r == rows
    ensures |OrdersOf(rows)| > 1 ==> forall x :: x in r <==> x in rows && x.of == selected
  {
    if |OrdersOf(rows)| > 1 then RowsOfOrder(rows, selected) else rows
  }

  // ---------------------------------------------------------------------
  // Angle axis
  // ---------------------------------------------------------------------

  predicate Ascending(xs: seq<real>)
  {
    forall i, j :: 0 <= i < j < |xs| ==> xs[i] < xs[j]
  }

  function Insert(xs: seq<real>, v: real): (r: seq<real>)
    requires Ascending(xs)
    ensures Ascending(r)
    ensures forall x :: x in r <==> x in xs || x == v
    decreases |xs|
  {
    if |xs| == 0 then [v]
    else if v < xs[0] then [v] + xs
    else if v == xs[0] then xs
    else
      var rest := Insert(xs[1..], v);
      assert forall x :: x in xs <==> x == xs[0] || x in xs[1..];
      assert forall k :: 0 <= k < |rest| ==> xs[0] < rest[k] by {
        forall k | 0 <= k < |rest| ensures xs[0] < rest[k] {
          assert rest[k] in rest;
        }
      }
      [xs[0]] + rest
  }

  /** `sorted(df["Angle_Degres"].dropna().unique())`. */
  function Axis(rows: seq<Reading>): (r: seq<real>)
    ensures Ascending(r)
    ensures forall a :: a in r <==> exists i :: 0 <= i < |rows| && rows[i].angle == Some(a)
    decreases |rows|
  {
    if |rows| == 0 then []
    else
      var n := |rows| - 1;
      var pre := Axis(rows[..n]);
      assert forall i :: 0 <= i < n ==> rows[..n][i] == rows[i];
      if rows[n].angle.Some? then Insert(pre, rows[n].angle.value) else pre
  }

  /** `angles.index(a)` for an angle of the axis. */
  function IndexIn(axis: seq<real>, a: real): (k: nat)
    requires a in axis
    ensures k < |axis| && axis[k] == a
    ensures forall j :: 0 <= j < k ==> axis[j] != a
  {
    if axis[0] == a then 0 else 1 + IndexIn(axis[1..], a)
  }

  // ---------------------------------------------------------------------
  // Value lists
  // ---------------------------------------------------------------------

  /** A row that gives dimension `name` a value at angle `a`. */
  predicate Feeds(row: Reading, name: string, a: real)
  {
    row.name == name && row.angle == Some(a) && row.mesure.Some?
  }

  /** The last row feeding (`name`, `a`): building a dictionary from the
      (angle, measure) pairs keeps the last pair of each angle. */
  function LastFeed(rows: seq<Reading>, name: string, a: real): (r: Option<nat>)
    ensures r.None? <==> forall i :: 0 <= i < |rows| ==> !Feeds(rows[i], name, a)
    ensures r.Some? ==> r.value < |rows| && Feeds(rows[r.value], name, a)
    ensures r.Some? ==> forall j :: r.value < j < |rows| ==> !Feeds(rows[j], name, a)
    decreases |rows|
  {
    if |rows| == 0 then None
    else if Feeds(rows[|rows| - 1], name, a) then Some(|rows| - 1)
    else
      var n := |rows| - 1;
      assert forall i :: 0 <= i < n ==> rows[..n][i] == rows[i];
      LastFeed(rows[..n], name, a)
  }

  /** The value of `name` at angle `a`, None where no row gives one. */
  function ValueAt(rows: seq<Reading>, name: string, a: real): (v: Option<real>)
    ensures v.None? <==> forall i :: 0 <= i < |rows| ==> !Feeds(rows[i], name, a)
  {
    match LastFeed(rows, name, a)
    case None => None
    case Some(i) => rows[i].mesure
  }

  /** `[mesures_dict.get(angle, None) for angle in angles]`. */
  function Values(rows: seq<Reading>, name: string, axis: seq<real>): (r: seq<Option<real>>)
    ensures |r| == |axis|
    ensures forall k :: 0 <= k < |axis| ==> r[k] == ValueAt(rows, name, axis[k])
  {
    seq(|axis|, k requires 0 <= k < |axis| => ValueAt(rows, name, axis[k]))
  }

  /** A row of `name` that survives `dropna(subset=["Angle_Degres", "Mesure"])`. */
  predicate Usable(row: Reading, name: string)
  {
    row.name == name && row.angle.Some? && row.mesure.Some?
  }

  function FirstUsable(rows: seq<Reading>, name: string): (r: Option<nat>)
    ensures r.None? <==> forall i :: 0 <= i < |rows| ==> !Usable(rows[i], name)
    ensures r.Some? ==> r.value < |rows| && Usable(rows[r.value], name)
    ensures r.Some? ==> forall j :: 0 <= j < r.value ==> !Usable(rows[j], name)
    decreases |rows|
  {
    if |rows| == 0 then None
    else if Usable(rows[0], name) then Some(0)
    else
      match FirstUsable(rows[1..], name)
      case None => None
      case Some(i) => Some(i + 1)
  }

  /** One analysed dimension: nominal, bounds and height from its first
      usable row, and its value list over the axis. */
  datatype Dim = Dim(
    name: string, nominal: Option<real>, tolMin: Option<real>, tolMax: Option<real>,
    values: seq<Option<real>>, height: Option<real>)

  /** The dimension `name`, or None when it is skipped. A missing name
      matches no row, because NaN equals nothing. */
  function DimOf(rows: seq<Reading>, name: string, axis: seq<real>, hasHeight: bool): (r: Option<Dim>)
    ensures r.Some? ==> r.value.name == name && |r.value.values| == |axis|
  {
    if IsNull(name) then None
    else match FirstUsable(rows, name)
      case None => None
      case Some(i) =>
        var first := rows[i];
        Some(Dim(name, first.nominal, first.tolMin, first.tolMax, Values(rows, name, axis),
                 if hasHeight then first.height else Some(0.0)))
  }

  /** Over the table's own axis a dimension is kept exactly when it has at
      least one value, so the explicit all-None skip never fires on its
      own. */
  lemma KeptIffSomeValue(rows: seq<Reading>, name: string, hasHeight: bool)
    ensures DimOf(rows, name, Axis(rows), hasHeight).Some? <==>
      !IsNull(name) && exists k :: 0 <= k < |Axis(rows)| && Values(rows, name, Axis(rows))[k].Some?
  {
    var axis := Axis(rows);
    var vs := Values(rows, name, axis);
    if !IsNull(name) {
      match FirstUsable(rows, name)
      case Some(i) =>
        var a := rows[i].angle.value;
        assert Feeds(rows[i], name, a);
        var k := IndexIn(axis, a);
        assert vs[k].Some?;
      case None =>
        forall k | 0 <= k < |axis| ensures vs[k].None? {
          forall i | 0 <= i < |rows| ensures !Feeds(rows[i], name, axis[k]) {
            assert !Usable(rows[i], name);
          }
        }
    }
  }

  /** The values given by a dimension's rows fill its slots: the slot of
      every angle of a feeding row holds the last such row's measure. */
  lemma SlotIsLastWrite(rows: seq<Reading>, name: string, axis: seq<real>, k: nat, i: nat)
    requires k < |axis| && i < |rows| && Feeds(rows[i], name, axis[k])
    requires forall j :: i < j < |rows| ==> !Feeds(rows[j], name, axis[k])
    ensures Values(rows, name, axis)[k] == rows[i].mesure
  {
  }

  // ---------------------------------------------------------------------
  // All dimensions
  // ---------------------------------------------------------------------

  /** `df["Nom_Cote"].unique()`: the names in order of first appearance. */
  function NamesIn(rows: seq<Reading>): (r: seq<string>)
    ensures forall i, j :: 0 <= i < j < |r| ==> r[i] != r[j]
    ensures forall x :: x in r <==> exists i :: 0 <= i < |rows| && rows[i].name == x
    decreases |rows|
  {
    if |rows| == 0 then []
    else
      var n := |rows| - 1;
      var pre := NamesIn(rows[..n]);
      assert forall i :: 0 <= i < n ==> rows[..n][i] == rows[i];
      if rows[n].name in pre then pre else pre + [rows[n].name]
  }

  /** The kept dimensions of `names`, in their order. */
  function DimsOf(rows: seq<Reading>, names: seq<string>, axis: seq<real>, hasHeight: bool): (r: seq<Dim>)
    requires forall i, j :: 0 <= i < j < |names| ==> names[i] != names[j]
    ensures forall i :: 0 <= i < |r| ==> r[i].name in names && DimOf(rows, r[i].name, axis, hasHeight) == Some(r[i])
    ensures forall n :: n in names && DimOf(rows, n, axis, hasHeight).Some? ==> DimOf(rows, n, axis, hasHeight).value in r
    ensures forall i, j :: 0 <= i < j < |r| ==> r[i].name != r[j].name
    decreases |names|
  {
    if |names| == 0 then []
    else
      var n := |names| - 1;
      var pre := DimsOf(rows, names[..n], axis, hasHeight);
      assert forall x :: x in names <==> x in names[..n] || x == names[n];
      assert names[n] !in names[..n];
      match DimOf(rows, names[n], axis, hasHeight)
      case None => pre
      case Some(d) => pre + [d]
  }

  datatype Analysis =
    | NoData                                   // empty table or no angle column
    | NoDimension                              // no dimension has a value
    | Analysed(axis: seq<real>, dims: seq<Dim>)

  /** The data part of `analyser_rayons` up to the choice of an angle. */
  function Analyse(rows: seq<Reading>, hasAngle: bool, hasHeight: bool, selected: string): (r: Analysis)
    ensures r.NoData? <==> |rows| == 0 || !hasAngle
    ensures r.Analysed? ==> r.axis == Axis(Scope(rows, selected)) && |r.dims| > 0
    ensures r.Analysed? ==> forall i :: 0 <= i < |r.dims| ==> |r.dims[i].values| == |r.axis|
    ensures r.Analysed? ==> forall i, j :: 0 <= i < j < |r.dims| ==> r.dims[i].name != r.dims[j].name
    ensures r.NoDimension? <==> hasAngle && |rows| > 0 && !AnyUsable(Scope(rows, selected))
  {
    if |rows| == 0 || !hasAngle then NoData
    else
      var scoped := Scope(rows, selected);
      var axis := Axis(scoped);
      var dims := DimsOf(scoped, NamesIn(scoped), axis, hasHeight);
      NoDimensionIff(scoped, axis, hasHeight);
      if |dims| == 0 then NoDimension else Analysed(axis, dims)
  }

  /** Some row has a name, an angle and a measure. */
  predicate AnyUsable(rows: seq<Reading>)
  {
    exists i :: 0 <= i < |rows| && !IsNull(rows[i].name) && Usable(rows[i], rows[i].name)
  }

  lemma NoDimensionIff(rows: seq<Reading>, axis: seq<real>, hasHeight: bool)
    ensures |DimsOf(rows, NamesIn(rows), axis, hasHeight)| == 0 <==> !AnyUsable(rows)
  {
    var dims := DimsOf(rows, NamesIn(rows), axis, hasHeight);
    if |dims| == 0 {
      forall i | 0 <= i < |rows| ensures !Usable(rows[i], rows[i].name) || IsNull(rows[i].name) {
        assert rows[i].name in NamesIn(rows);
      }
    } else {
      var d := dims[0];
      var k := FirstUsable(rows, d.name).value;
      assert Usable(rows[k], rows[k].name) && !IsNull(rows[k].name);
    }
  }

  // ---------------------------------------------------------------------
  // Deviation bars at one angle
  // ---------------------------------------------------------------------

  datatype Bar = Bar(name: string, dev: Option<real>, red: bool)

  /** The bar of a value: its deviation from the nominal, red when it lies
      beyond a bound. */
  function BarOf(d: Dim, m: real): (b: Bar)
    ensures b.name == d.name
    ensures b.dev.Some? <==> d.nominal.Some?
    ensures b.dev.Some? ==> b.dev.value + d.nominal.value == m
    ensures d.tolMin.Some? && d.tolMax.Some? ==> (b.red <==> !(d.tolMin.value <= m <= d.tolMax.value))
  {
    Bar(d.name, Sub(Some(m), d.nominal), Beyond(Some(m), d.tolMin, d.tolMax))
  }

  /** The bars at axis position `idx`: one per dimension with a value
      there, in dimension order. */
  function Bars(dims: seq<Dim>, idx: nat): (r: seq<Bar>)
    requires forall i :: 0 <= i < |dims| ==> idx < |dims[i].values|
    ensures |r| <= |dims|
    ensures forall i :: 0 <= i < |dims| && dims[i].values[idx].Some? ==>
      BarOf(dims[i], dims[i].values[idx].value) in r
    ensures forall b :: b in r ==>
      exists i :: 0 <= i < |dims| && dims[i].values[idx].Some? && b == BarOf(dims[i], dims[i].values[idx].value)
    decreases |dims|
  {
    if |dims| == 0 then []
    else
      var n := |dims| - 1;
      var pre := Bars(dims[..n], idx);
      assert forall i :: 0 <= i < n ==> dims[..n][i] == dims[i];
      match dims[n].values[idx]
      case None => pre
      case Some(m) => pre + [BarOf(dims[n], m)]
  }

  // ---------------------------------------------------------------------
  // Profile groups
  // ---------------------------------------------------------------------

  /** `cotes_info.get(nom, {}).get("Groupe_Profil", "Sans groupe")`. */
  datatype GroupKey = Ungrouped | NoneGroup | Group(id: int)

  function KeyOf(reg: Registry, name: string): GroupKey
  {
    if name !in reg then Ungrouped
    else match reg[name].group
      case Absent => Ungrouped
      case Null => NoneGroup
      case Val(g) => Group(g)
  }

  /** The group keys met, in order of first appearance. */
  function KeysOf(dims: seq<Dim>, reg: Registry): (r: seq<GroupKey>)
    ensures forall i, j :: 0 <= i < j < |r| ==> r[i] != r[j]
    ensures forall k :: k in r <==> exists i :: 0 <= i < |dims| && KeyOf(reg, dims[i].name) == k
    decreases |dims|
  {
    if |dims| == 0 then []
    else
      var n := |dims| - 1;
      var pre := KeysOf(dims[..n], reg);
      assert forall i :: 0 <= i < n ==> dims[..n][i] == dims[i];
      var k := KeyOf(reg, dims[n].name);
      if k in pre then pre else pre + [k]
  }

  /** The members of group `k`, in dimension order. */
  function MembersOf(dims: seq<Dim>, reg: Registry, k: GroupKey): (r: seq<string>)
    ensures |r| <= |dims|
    ensures forall x :: x in r <==> exists i :: 0 <= i < |dims| && dims[i].name == x && KeyOf(reg, x) == k
    decreases |dims|
  {
    if |dims| == 0 then []
    else
      var n := |dims| - 1;
      assert forall i :: 0 <= i < n ==> dims[..n][i] == dims[i];
      MembersOf(dims[..n], reg, k) + (if KeyOf(reg, dims[n].name) == k then [dims[n].name] else [])
  }

  /** The groups that get a radar: at least three analysed members. */
  function EligibleGroups(dims: seq<Dim>, reg: Registry): (r: seq<GroupKey>)
    ensures forall k :: k in r <==> k in KeysOf(dims, reg) && |MembersOf(dims, reg, k)| >= 3
  {
    FilterEligible(KeysOf(dims, reg), dims, reg)
  }

  function FilterEligible(ks: seq<GroupKey>, dims: seq<Dim>, reg: Registry): (r: seq<GroupKey>)
    ensures forall k :: k in r <==> k in ks && |MembersOf(dims, reg, k)| >= 3
    decreases |ks|
  {
    if |ks| == 0 then []
    else
      var n := |ks| - 1;
      assert forall x :: x in ks <==> x in ks[..n] || x == ks[n];
      FilterEligible(ks[..n], dims, reg) + (if |MembersOf(dims, reg, ks[n])| >= 3 then [ks[n]] else [])
  }

  /** A dimension without a registry entry or without a group tag lands in
      the shared "Sans groupe" group. */
  lemma UntaggedShareGroup(dims: seq<Dim>, reg: Registry, i: nat)
    requires i < |dims| && (dims[i].name !in reg || reg[dims[i].name].group.Absent?)
    ensures dims[i].name in MembersOf(dims, reg, Ungrouped)
  {
  }

  // ---------------------------------------------------------------------
  // Radar of one group
  // ---------------------------------------------------------------------

  /** `cotes.get(nom)`. */
  function DimNamed(dims: seq<Dim>, name: string): (r: Option<Dim>)
    ensures r.Some? ==> r.value in dims && r.value.name == name
    ensures r.None? <==> forall i :: 0 <= i < |dims| ==> dims[i].name != name
    decreases |dims|
  {
    if |dims| == 0 then None
    else if dims[0].name == name then Some(dims[0])
    else DimNamed(dims[1..], name)
  }

  /** The key the members are ordered by: the registry angle, 0 when the
      entry or the key is missing. */
  function SortAngle(reg: Registry, name: string): real
  {
    if name in reg && reg[name].angle.Val? then reg[name].angle.v else 0.0
  }

  /** Ordering the members fails when one of their angles is None, which
      does not compare with numbers, and reading the angles back fails for a
      member missing from the registry. */
  predicate RadarFails(reg: Registry, members: seq<string>)
  {
    exists i :: 0 <= i < |members| && (members[i] !in reg || reg[members[i]].angle.Null?)
  }

  /** One vertex: the member, its value at its angle, and that angle. */
  datatype Point = Point(name: string, r: Option<real>, theta: real)

  /** The vertex of a member, None when its angle is unset or not on the
      axis, or when it was not analysed. */
  function PointOf(name: string, reg: Registry, dims: seq<Dim>, axis: seq<real>): (p: Option<Point>)
    requires forall i :: 0 <= i < |dims| ==> |dims[i].values| == |axis|
    ensures p.Some? ==> p.value.name == name && p.value.theta == SortAngle(reg, name) && p.value.theta in axis
  {
    if name !in reg || !reg[name].angle.Val? || reg[name].angle.v !in axis then None
    else
      var a := reg[name].angle.v;
      match DimNamed(dims, name)
      case None => None
      case Some(d) => Some(Point(name, d.values[IndexIn(axis, a)], a))
  }

  /** The vertices of the ordered members, in that order. */
  function Points(names: seq<string>, reg: Registry, dims: seq<Dim>, axis: seq<real>): (ps: seq<Point>)
    requires forall i :: 0 <= i < |dims| ==> |dims[i].values| == |axis|
    ensures |ps| <= |names|
    ensures forall i :: 0 <= i < |ps| ==> exists j :: 0 <= j < |names| && PointOf(names[j], reg, dims, axis) == Some(ps[i])
    ensures (forall j :: 0 <= j < |names| ==> PointOf(names[j], reg, dims, axis).Some?) ==> |ps| == |names|
    decreases |names|
  {
    if |names| == 0 then []
    else
      var n := |names| - 1;
      var pre := Points(names[..n], reg, dims, axis);
      assert forall j :: 0 <= j < n ==> names[..n][j] == names[j];
      match PointOf(names[n], reg, dims, axis)
      case None => pre
      case Some(p) => pre + [p]
  }

  /** Angles that never decrease along the list of vertices. */
  predicate ThetasAscend(ps: seq<Point>)
  {
    forall i, j :: 0 <= i < j < |ps| ==> ps[i].theta <= ps[j].theta
  }

  /** Members sorted by angle give vertices whose angles never decrease. */
  lemma {:induction false} PointsAscend(names: seq<string>, reg: Registry, dims: seq<Dim>, axis: seq<real>)
    requires forall i :: 0 <= i < |dims| ==> |dims[i].values| == |axis|
    requires SortedBy(names, n => SortAngle(reg, n))
    ensures ThetasAscend(Points(names, reg, dims, axis))
    decreases |names|
  {
    if |names| > 0 {
      var n := |names| - 1;
      var pre := Points(names[..n], reg, dims, axis);
      assert SortedBy(names[..n], n => SortAngle(reg, n)) by {
        forall i, j | 0 <= i < j < n ensures SortAngle(reg, names[..n][i]) <= SortAngle(reg, names[..n][j]) {
          assert names[..n][i] == names[i] && names[..n][j] == names[j];
        }
      }
      PointsAscend(names[..n], reg, dims, axis);
      match PointOf(names[n], reg, dims, axis)
      case None =>
        assert Points(names, reg, dims, axis) == pre;
      case Some(p) =>
        assert Points(names, reg, dims, axis) == pre + [p];
        forall i | 0 <= i < |pre| ensures pre[i].theta <= p.theta {
          var j :| 0 <= j < n && PointOf(names[..n][j], reg, dims, axis) == Some(pre[i]);
          assert names[..n][j] == names[j];
          assert SortAngle(reg, names[j]) <= SortAngle(reg, names[n]);
        }
        ThetasAscendAppend(pre, p);
    }
  }

  lemma ThetasAscendAppend(ps: seq<Point>, p: Point)
    requires ThetasAscend(ps)
    requires forall i :: 0 <= i < |ps| ==> ps[i].theta <= p.theta
    ensures ThetasAscend(ps + [p])
  {
    var qs := ps + [p];
    forall i, j | 0 <= i < j < |qs| ensures qs[i].theta <= qs[j].theta {
      assert qs[i] == ps[i];
      if j < |ps| {
        assert qs[j] == ps[j];
      }
    }
  }

  function Radii(ps: seq<Point>): (r: seq<Option<real>>)
    ensures |r| == |ps| && forall i :: 0 <= i < |ps| ==> r[i] == ps[i].r
  {
    seq(|ps|, i requires 0 <= i < |ps| => ps[i].r)
  }

  function Thetas(ps: seq<Point>): (r: seq<real>)
    ensures |r| == |ps| && forall i :: 0 <= i < |ps| ==> r[i] == ps[i].theta
  {
    seq(|ps|, i requires 0 <= i < |ps| => ps[i].theta)
  }

  function TolMaxOf(dims: seq<Dim>, name: string): Option<real>
  {
    match DimNamed(dims, name)
    case None => None
    case Some(d) => d.tolMax
  }

  function TolMinOf(dims: seq<Dim>, name: string): Option<real>
  {
    match DimNamed(dims, name)
    case None => None
    case Some(d) => d.tolMin
  }

  /** The upper and lower tolerance of each name, in order. */
  function TolMaxes(dims: seq<Dim>, names: seq<string>): (r: seq<Option<real>>)
    ensures |r| == |names| && forall i :: 0 <= i < |names| ==> r[i] == TolMaxOf(dims, names[i])
  {
    seq(|names|, i requires 0 <= i < |names| => TolMaxOf(dims, names[i]))
  }

  function TolMins(dims: seq<Dim>, names: seq<string>): (r: seq<Option<real>>)
    ensures |r| == |names| && forall i :: 0 <= i < |names| ==> r[i] == TolMinOf(dims, names[i])
  {
    seq(|names|, i requires 0 <= i < |names| => TolMinOf(dims, names[i]))
  }

  function NamesOfPoints(ps: seq<Point>): (r: seq<string>)
    ensures |r| == |ps| && forall i :: 0 <= i < |ps| ==> r[i] == ps[i].name
  {
    seq(|ps|, i requires 0 <= i < |ps| => ps[i].name)
  }

  /** The traces of one radar: measure, angle and both tolerances. */
  datatype Polygon = Polygon(r: seq<Option<real>>, theta: seq<real>, tolPlus: seq<Option<real>>, tolMinus: seq<Option<real>>)

  datatype RadarView = Fails | TooFewValues | Drawn(polygon: Polygon)

  /** The members of `k`, ordered by their registry angle. */
  function OrderedMembers(dims: seq<Dim>, reg: Registry, k: GroupKey): (r: seq<string>)
    ensures SortedBy(r, n => SortAngle(reg, n))
    ensures multiset(r) == multiset(MembersOf(dims, reg, k))
  {
    SortBy(MembersOf(dims, reg, k), n => SortAngle(reg, n))
  }

  /** The radar of group `k` as the page builds it: the measure and angle
      lists are closed twice, and the tolerance lists run over every member,
      not only over those that gave a vertex. */
  function RadarAsWritten(dims: seq<Dim>, reg: Registry, axis: seq<real>, k: GroupKey): (v: RadarView)
    requires forall i :: 0 <= i < |dims| ==> |dims[i].values| == |axis|
    requires |MembersOf(dims, reg, k)| >= 3
    ensures v.Fails? <==> RadarFails(reg, MembersOf(dims, reg, k))
    ensures v.TooFewValues? <==>
      !RadarFails(reg, MembersOf(dims, reg, k)) && |Points(OrderedMembers(dims, reg, k), reg, dims, axis)| < 3
  {
    var members := MembersOf(dims, reg, k);
    if RadarFails(reg, members) then Fails
    else
      var sorted := OrderedMembers(dims, reg, k);
      var ps := Points(sorted, reg, dims, axis);
      if |ps| < 3 then TooFewValues
      else
        Drawn(Polygon(Close(Close(Radii(ps))), Close(Close(Thetas(ps))),
                      Close(TolMaxes(dims, sorted)), Close(TolMins(dims, sorted))))
  }

  /** As written, the tolerance traces never line up with the measure trace
      when every member gives a vertex: they are one point short. */
  lemma AsWrittenMisaligned(dims: seq<Dim>, reg: Registry, axis: seq<real>, k: GroupKey)
    requires forall i :: 0 <= i < |dims| ==> |dims[i].values| == |axis|
    requires |MembersOf(dims, reg, k)| >= 3
    requires RadarAsWritten(dims, reg, axis, k).Drawn?
    ensures var p := RadarAsWritten(dims, reg, axis, k).polygon;
      |p.r| == |p.theta| && p.r[|p.r| - 1] == p.r[|p.r| - 2] == p.r[0]
    ensures var p := RadarAsWritten(dims, reg, axis, k).polygon;
      |p.tolPlus| == |p.tolMinus| == |MembersOf(dims, reg, k)| + 1
    ensures (forall n :: n in MembersOf(dims, reg, k) ==> PointOf(n, reg, dims, axis).Some?) ==>
      var p := RadarAsWritten(dims, reg, axis, k).polygon;
      |p.tolPlus| + 1 == |p.r|
  {
    var members := MembersOf(dims, reg, k);
    var sorted := OrderedMembers(dims, reg, k);
    var ps := Points(sorted, reg, dims, axis);
    assert |sorted| == |members| by {
      assert |multiset(sorted)| == |multiset(members)|;
    }
    if forall n :: n in members ==> PointOf(n, reg, dims, axis).Some? {
      forall j | 0 <= j < |sorted| ensures PointOf(sorted[j], reg, dims, axis).Some? {
        assert sorted[j] in multiset(members);
      }
    }
  }

  /** The radar of group `k` with every trace closed once over the members
      that gave a vertex. */
  function RadarOf(dims: seq<Dim>, reg: Registry, axis: seq<real>, k: GroupKey): (v: RadarView)
    requires forall i :: 0 <= i < |dims| ==> |dims[i].values| == |axis|
    requires |MembersOf(dims, reg, k)| >= 3
    ensures v.Fails? <==> RadarFails(reg, MembersOf(dims, reg, k))
    ensures v.TooFewValues? <==>
      !RadarFails(reg, MembersOf(dims, reg, k)) && |Points(OrderedMembers(dims, reg, k), reg, dims, axis)| < 3
  {
    var members := MembersOf(dims, reg, k);
    if RadarFails(reg, members) then Fails
    else
      var ps := Points(OrderedMembers(dims, reg, k), reg, dims, axis);
      if |ps| < 3 then TooFewValues
      else
        var names := NamesOfPoints(ps);
        Drawn(Polygon(Close(Radii(ps)), Close(Thetas(ps)), Close(TolMaxes(dims, names)), Close(TolMins(dims, names))))
  }

  /** A group of at least three members that all give a vertex is drawn
      exactly when the registry angle lookup does not fail. */
  lemma RadarDrawnWhenValued(dims: seq<Dim>, reg: Registry, axis: seq<real>, k: GroupKey)
    requires forall i :: 0 <= i < |dims| ==> |dims[i].values| == |axis|
    requires |MembersOf(dims, reg, k)| >= 3
    requires forall n :: n in MembersOf(dims, reg, k) ==> PointOf(n, reg, dims, axis).Some?
    ensures RadarOf(dims, reg, axis, k).Drawn? <==> !RadarFails(reg, MembersOf(dims, reg, k))
  {
    var members := MembersOf(dims, reg, k);
    var sorted := OrderedMembers(dims, reg, k);
    assert |sorted| == |members| by {
      assert |multiset(sorted)| == |multiset(members)|;
    }
    forall j | 0 <= j < |sorted| ensures PointOf(sorted[j], reg, dims, axis).Some? {
      assert sorted[j] in multiset(members);
    }
  }

  /** Every trace of the corrected radar has one point per vertex plus the
      closing point, which repeats the first; vertex `i` carries the value,
      the angle and the bounds of the same member; and the angles go round
      in ascending order. */
  lemma RadarAligned(dims: seq<Dim>, reg: Registry, axis: seq<real>, k: GroupKey)
    requires forall i :: 0 <= i < |dims| ==> |dims[i].values| == |axis|
    requires |MembersOf(dims, reg, k)| >= 3
    requires RadarOf(dims, reg, axis, k).Drawn?
    ensures var p := RadarOf(dims, reg, axis, k).polygon;
      var m := |p.r| - 1;
      m >= 3 && |p.theta| == |p.tolPlus| == |p.tolMinus| == m + 1
      && p.r[m] == p.r[0] && p.theta[m] == p.theta[0]
      && p.tolPlus[m] == p.tolPlus[0] && p.tolMinus[m] == p.tolMinus[0]
    ensures var p := RadarOf(dims, reg, axis, k).polygon;
      forall i, j :: 0 <= i < j < |p.theta| - 1 ==> p.theta[i] <= p.theta[j]
    ensures var p := RadarOf(dims, reg, axis, k).polygon;
      var ps := Points(OrderedMembers(dims, reg, k), reg, dims, axis);
      |ps| == |p.r| - 1 && forall i :: 0 <= i < |ps| ==>
        p.r[i] == ps[i].r && p.theta[i] == ps[i].theta
        && p.tolPlus[i] == TolMaxOf(dims, ps[i].name) && p.tolMinus[i] == TolMinOf(dims, ps[i].name)
  {
    PointsAscend(OrderedMembers(dims, reg, k), reg, dims, axis);
  }
}
