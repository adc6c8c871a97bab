/** Per-dimension statistics of the two statistics pages: count, mean,
    sample standard deviation, mean absolute deviation, Cp, Cpk and the share
    of out-of-tolerance rows. Missing values (pandas' NaN) are `None`; the
    square root is a parameter characterised by its defining property. */
module Stats {
  import opened Base

  /** One measured row as the statistics see it. */
  datatype Obs = Obs(
    value: Option<real>,     // Mesure_Theorique
    gap: Option<real>,       // Écart (mm)
    out: bool,               // Hors tolérance
    tolMin: Option<real>,
    tolMax: Option<real>)

  /** One row of the statistics table; `None` where the page shows NaN/None. */
  datatype Summary = Summary(
    n: nat, mean: Option<real>, std: Option<real>, meanAbsGap: Option<real>,
    cp: Option<real>, cpk: Option<real>, pctOut: Option<real>)

  /** A square root on the non-negative reals. */
  ghost predicate IsSqrt(sqrt: real -> real)
  {
    forall x :: 0.0 <= x ==> 0.0 <= sqrt(x) && sqrt(x) * sqrt(x) == x
  }

  // ---------------------------------------------------------------------
  // Sums and moments
  // ---------------------------------------------------------------------

  function Sum(xs: seq<real>): real
    decreases |xs|
  {
    if |xs| == 0 then 0.0 else Sum(xs[..|xs| - 1]) + xs[|xs| - 1]
  }

  function Mean(xs: seq<real>): real
    requires |xs| > 0
  {
    Sum(xs) / (|xs| as real)
  }

  /** The sum of squared deviations from `m`. */
  function SquaredDeviation(xs: seq<real>, m: real): (r: real)
    ensures r >= 0.0
    decreases |xs|
  {
    if |xs| == 0 then 0.0
    else
      SquareFacts(xs[|xs| - 1] - m);
      SquaredDeviation(xs[..|xs| - 1], m) + Square(xs[|xs| - 1] - m)
  }

  function Square(d: real): real
  {
    d * d
  }

  /** pandas' `std()` squared: the variance with `n - 1` in the denominator. */
  function SampleVariance(xs: seq<real>): (v: real)
    requires |xs| >= 2
    ensures v >= 0.0
  {
    SquaredDeviation(xs, Mean(xs)) / ((|xs| - 1) as real)
  }

  /** The values present among optional ones (pandas skips NaN). */
  function Present(xs: seq<Option<real>>): (r: seq<real>)
    ensures |r| <= |xs|
    ensures forall i :: 0 <= i < |r| ==> Some(r[i]) in xs
    ensures (forall i :: 0 <= i < |xs| ==> xs[i].Some?) ==>
      |r| == |xs| && forall i :: 0 <= i < |xs| ==> r[i] == xs[i].value
    decreases |xs|
  {
    if |xs| == 0 then []
    else
      var pre := xs[..|xs| - 1];
      var r := Present(pre) + (if xs[|xs| - 1].Some? then [xs[|xs| - 1].value] else []);
      assert forall i :: 0 <= i < |pre| ==> pre[i] == xs[i];
      r
  }

  /** Which entries hold a value. */
  function SomeMarks(xs: seq<Option<real>>): (m: seq<bool>)
    ensures |m| == |xs| && forall i :: 0 <= i < |xs| ==> m[i] == xs[i].Some?
  {
    seq(|xs|, i requires 0 <= i < |xs| => xs[i].Some?)
  }

  /** `r` lists the values found at the positions `idx`, which are exactly
      the positions of `xs` that hold a value, in increasing order. */
  predicate ValuesAt(xs: seq<Option<real>>, idx: seq<nat>, r: seq<real>)
  {
    && MarkedPositions(idx, SomeMarks(xs))
    && |idx| == |r|
    && forall j :: 0 <= j < |idx| ==> xs[idx[j]] == Some(r[j])
  }

  lemma ValuesAtAppend(xs: seq<Option<real>>, x: Option<real>, idx: seq<nat>, r: seq<real>)
    requires ValuesAt(xs, idx, r)
    ensures ValuesAt(xs + [x], idx + (if x.Some? then [|xs|] else []), r + (if x.Some? then [x.value] else []))
  {
    MarkedPositionsAppend(idx, SomeMarks(xs), x.Some?);
    assert SomeMarks(xs) + [x.Some?] == SomeMarks(xs + [x]);
    var idx2 := idx + (if x.Some? then [|xs|] else []);
    var r2 := r + (if x.Some? then [x.value] else []);
    forall j | 0 <= j < |idx2| ensures (xs + [x])[idx2[j]] == Some(r2[j]) {
      if j < |idx| {
        assert idx2[j] == idx[j] && r2[j] == r[j];
      }
    }
  }

  /** `Present` keeps every present value, once, in order. */
  lemma {:induction false} PresentSelects(xs: seq<Option<real>>)
    ensures exists idx :: ValuesAt(xs, idx, Present(xs))
    decreases |xs|
  {
    if |xs| == 0 {
      assert Present(xs) == [];
      assert ValuesAt(xs, [], []);
    } else {
      var n := |xs| - 1;
      var pre := xs[..n];
      var x := xs[n];
      assert xs == pre + [x];
      var step := if x.Some? then [x.value] else [];
      assert Present(xs) == Present(pre) + step;
      PresentSelects(pre);
      var idx :| ValuesAt(pre, idx, Present(pre));
      ValuesAtAppend(pre, x, idx, Present(pre));
    }
  }

  /** pandas' `mean()`: NaN (None) when no value is present. */
  function MeanOf(xs: seq<Option<real>>): (r: Option<real>)
    ensures r.None? <==> |Present(xs)| == 0
  {
    var p := Present(xs);
    if |p| == 0 then None else Some(Mean(p))
  }

  /** The mean times the number of present values is their sum. */
  lemma MeanTimesCount(xs: seq<Option<real>>)
    requires MeanOf(xs).Some?
    ensures MeanOf(xs).value * (|Present(xs)| as real) == Sum(Present(xs))
  {
    DivMul(Sum(Present(xs)), |Present(xs)| as real);
  }

  lemma DivMul(a: real, d: real)
    requires d != 0.0
    ensures (a / d) * d == a
  {
  }

  function Abs(x: real): real
  {
    if x < 0.0 then -x else x
  }

  function AbsAll(xs: seq<Option<real>>): (r: seq<Option<real>>)
    ensures |r| == |xs|
    ensures forall i :: 0 <= i < |xs| ==>
      r[i] == (if xs[i].Some? then Some(Abs(xs[i].value)) else None)
  {
    seq(|xs|, i requires 0 <= i < |xs| => if xs[i].Some? then Some(Abs(xs[i].value)) else None)
  }

  /** A sum of non-negative values is non-negative. */
  lemma {:induction false} SumNonNegative(xs: seq<real>)
    requires forall i :: 0 <= i < |xs| ==> xs[i] >= 0.0
    ensures Sum(xs) >= 0.0
    decreases |xs|
  {
    if |xs| > 0 {
      SumNonNegative(xs[..|xs| - 1]);
    }
  }

  /** The sum of `n` copies of `c`. */
  lemma {:induction false} SumConstant(xs: seq<real>, c: real)
    requires forall i :: 0 <= i < |xs| ==> xs[i] == c
    ensures Sum(xs) == (|xs| as real) * c
    decreases |xs|
  {
    if |xs| > 0 {
      SumConstant(xs[..|xs| - 1], c);
    }
  }

  /** The squared deviation from `m` vanishes exactly when every value is `m`. */
  lemma {:induction false} SquaredDeviationZero(xs: seq<real>, m: real)
    ensures SquaredDeviation(xs, m) == 0.0 <==> forall i :: 0 <= i < |xs| ==> xs[i] == m
    decreases |xs|
  {
    if |xs| > 0 {
      var pre := xs[..|xs| - 1];
      var last := xs[|xs| - 1];
      SquaredDeviationZero(pre, m);
      SquareFacts(xs[|xs| - 1] - m);
      if SquaredDeviation(xs, m) == 0.0 {
        assert last == m;
        forall i | 0 <= i < |xs| ensures xs[i] == m {
          if i < |pre| { assert xs[i] == pre[i]; }
        }
      }
      if forall i :: 0 <= i < |xs| ==> xs[i] == m {
        forall i | 0 <= i < |pre| ensures pre[i] == m {
          assert pre[i] == xs[i];
        }
      }
    }
  }

  /** A square is never negative and vanishes only at zero. */
  lemma SquareFacts(d: real)
    ensures Square(d) >= 0.0
    ensures d != 0.0 ==> Square(d) > 0.0
    ensures d == 0.0 ==> Square(d) == 0.0
  {
    ProductNonNegative(d, Square(d));
    if d > 0.0 {
      ProductPositive(d, d, Square(d));
    } else if d < 0.0 {
      ProductOfNegatives(d, d, Square(d));
    } else {
      ProductOfZero(d, d, Square(d));
    }
  }

  lemma ProductNonNegative(d: real, s: real)
    requires s == d * d
    ensures s >= 0.0
  {
  }

  lemma ProductPositive(a: real, b: real, s: real)
    requires a > 0.0 && b > 0.0 && s == a * b
    ensures s > 0.0
  {
  }

  lemma ProductOfNegatives(a: real, b: real, s: real)
    requires a < 0.0 && b < 0.0 && s == a * b
    ensures s > 0.0
  {
  }

  lemma ProductOfZero(a: real, b: real, s: real)
    requires a == 0.0 && s == a * b
    ensures s == 0.0
  {
  }

  /** A non-negative number whose square is zero is zero. */
  lemma RootOfZero(s: real, v: real)
    requires s >= 0.0 && v == s * s && v == 0.0
    ensures s == 0.0
  {
    if s > 0.0 {
      ProductPositive(s, s, v);
    }
  }

  /** The sample variance is zero exactly when all values are equal. */
  lemma VarianceZeroIffConstant(xs: seq<real>)
    requires |xs| >= 2
    ensures SampleVariance(xs) == 0.0 <==> forall i, j :: 0 <= i < |xs| && 0 <= j < |xs| ==> xs[i] == xs[j]
  {
    var m := Mean(xs);
    SquaredDeviationZero(xs, m);
    var den := (|xs| - 1) as real;
    assert SampleVariance(xs) == 0.0 <==> SquaredDeviation(xs, m) == 0.0 by {
      assert den > 0.0;
      assert SampleVariance(xs) * den == SquaredDeviation(xs, m);
    }
    if forall i, j :: 0 <= i < |xs| && 0 <= j < |xs| ==> xs[i] == xs[j] {
      SumConstant(xs, xs[0]);
      assert m == xs[0];
    }
  }

  // ---------------------------------------------------------------------
  // One group
  // ---------------------------------------------------------------------

  function Values(g: seq<Obs>): (r: seq<Option<real>>)
    ensures |r| == |g| && forall i :: 0 <= i < |g| ==> r[i] == g[i].value
  {
    seq(|g|, i requires 0 <= i < |g| => g[i].value)
  }

  function Gaps(g: seq<Obs>): (r: seq<Option<real>>)
    ensures |r| == |g| && forall i :: 0 <= i < |g| ==> r[i] == g[i].gap
  {
    seq(|g|, i requires 0 <= i < |g| => g[i].gap)
  }

  /** How many rows are flagged out of tolerance. */
  function CountOut(g: seq<Obs>): (c: nat)
    ensures c <= |g|
    decreases |g|
  {
    if |g| == 0 then 0 else CountOut(g[..|g| - 1]) + (if g[|g| - 1].out then 1 else 0)
  }

  /** `100 * group["Hors tolérance"].mean()`. */
  function PctOut(g: seq<Obs>): (r: Option<real>)
    ensures r.None? <==> |g| == 0
  {
    if |g| == 0 then None
    else Some(100.0 * (CountOut(g) as real) / (|g| as real))
  }

  /** The share of flagged rows lies in [0, 100]. */
  lemma PctOutBounds(g: seq<Obs>)
    requires |g| > 0
    ensures 0.0 <= PctOut(g).value <= 100.0
  {
    var c := CountOut(g) as real;
    var n := |g| as real;
    assert PctOut(g).value == 100.0 * c / n;
    ShareBounds(c, n);
  }

  lemma ShareBounds(c: real, n: real)
    requires 0.0 <= c <= n && n > 0.0
    ensures 0.0 <= 100.0 * c / n <= 100.0
  {
  }

  /** `~value.between(tol_min, tol_max)`: inside the closed range is in
      tolerance; a missing value or bound compares false, so the row is out. */
  predicate OutOfTolerance(value: Option<real>, tolMin: Option<real>, tolMax: Option<real>)
  {
    !(value.Some? && tolMin.Some? && tolMax.Some? && tolMin.value <= value.value <= tolMax.value)
  }

  /** `(value < tol_min) | (value > tol_max)`: a comparison with a missing
      value or bound is false, so only a present bound can be crossed. */
  predicate Beyond(value: Option<real>, tolMin: Option<real>, tolMax: Option<real>)
  {
    value.Some? && ((tolMin.Some? && value.value < tolMin.value) || (tolMax.Some? && value.value > tolMax.value))
  }

  /** The two tolerance tests agree when the value and both bounds are
      present, and only then can they differ. */
  lemma BeyondIffOutOfTolerance(value: Option<real>, tolMin: Option<real>, tolMax: Option<real>)
    ensures value.Some? && tolMin.Some? && tolMax.Some? ==>
      (Beyond(value, tolMin, tolMax) <==> OutOfTolerance(value, tolMin, tolMax))
    ensures Beyond(value, tolMin, tolMax) ==> OutOfTolerance(value, tolMin, tolMax)
    ensures OutOfTolerance(Some(1.0), None, Some(2.0)) && !Beyond(Some(1.0), None, Some(2.0))
  {
  }

  function Sub(a: Option<real>, b: Option<real>): Option<real>
  {
    if a.Some? && b.Some? then Some(a.value - b.value) else None
  }

  /** Python's `min(a, b)`, which is `b if b < a else a`: a comparison with
      NaN is false, so a NaN second argument yields the first. */
  function PyMin(a: Option<real>, b: Option<real>): (r: Option<real>)
    ensures a.Some? && b.Some? ==> r == Some(if b.value < a.value then b.value else a.value)
    ensures a.None? ==> r.None?
    ensures a.Some? && b.None? ==> r == a
  {
    if a.Some? && b.Some? && b.value < a.value then b else a
  }

  /** `.abs().mean()`: the mean absolute value, never negative. */
  function MeanAbs(xs: seq<Option<real>>): (r: Option<real>)
    ensures r == MeanOf(AbsAll(xs))
    ensures r.Some? ==> r.value >= 0.0
  {
    var p := Present(AbsAll(xs));
    forall i | 0 <= i < |p| ensures p[i] >= 0.0 {
      assert Some(p[i]) in AbsAll(xs);
    }
    SumNonNegative(p);
    MeanOf(AbsAll(xs))
  }

  function AbsEach(p: seq<real>): (r: seq<real>)
    ensures |r| == |p| && forall i :: 0 <= i < |p| ==> r[i] == Abs(p[i])
  {
    seq(|p|, i requires 0 <= i < |p| => Abs(p[i]))
  }

  /** The present absolute values are the absolute present values. */
  lemma {:induction false} PresentAbs(xs: seq<Option<real>>)
    ensures Present(AbsAll(xs)) == AbsEach(Present(xs))
    decreases |xs|
  {
    if |xs| > 0 {
      var n := |xs| - 1;
      PresentAbs(xs[..n]);
      assert AbsAll(xs)[..n] == AbsAll(xs[..n]);
      if xs[n].Some? {
        assert AbsEach(Present(xs[..n]) + [xs[n].value]) == AbsEach(Present(xs[..n])) + [Abs(xs[n].value)];
      }
    }
  }

  /** The absolute value of a sum is at most the sum of absolute values. */
  lemma {:induction false} SumAbsBound(p: seq<real>)
    ensures Abs(Sum(p)) <= Sum(AbsEach(p))
    decreases |p|
  {
    if |p| > 0 {
      var n := |p| - 1;
      SumAbsBound(p[..n]);
      assert AbsEach(p)[..n] == AbsEach(p[..n]);
    }
  }

  /** The mean absolute gap is defined exactly when the mean gap is, and it
      is at least the mean gap's size. */
  lemma MeanAbsBound(xs: seq<Option<real>>)
    ensures MeanAbs(xs).Some? <==> MeanOf(xs).Some?
    ensures MeanOf(xs).Some? ==> Abs(MeanOf(xs).value) <= MeanAbs(xs).value
  {
    PresentAbs(xs);
    var p := Present(xs);
    if |p| > 0 {
      SumAbsBound(p);
      var n := |p| as real;
      assert MeanAbs(xs).value == Sum(AbsEach(p)) / n;
      assert MeanOf(xs).value == Sum(p) / n;
      DivAbs(Sum(p), Sum(AbsEach(p)), n);
    }
  }

  lemma DivAbs(s: real, t: real, n: real)
    requires Abs(s) <= t && n > 0.0
    ensures Abs(s / n) <= t / n
  {
    if s < 0.0 {
      assert -(s / n) == (-s) / n;
    }
  }

  /** pandas' `std()`: defined once two values are present. */
  function StdOf(xs: seq<Option<real>>, sqrt: real -> real): (r: Option<real>)
    requires IsSqrt(sqrt)
    ensures r.Some? <==> |Present(xs)| >= 2
    ensures r.Some? ==> r.value >= 0.0
  {
    var p := Present(xs);
    if |p| >= 2 then Some(sqrt(SampleVariance(p))) else None
  }

  /** The standard deviation squared is the sample variance. */
  lemma StdSquared(xs: seq<Option<real>>, sqrt: real -> real)
    requires IsSqrt(sqrt) && StdOf(xs, sqrt).Some?
    ensures StdOf(xs, sqrt).value * StdOf(xs, sqrt).value == SampleVariance(Present(xs))
  {
  }

  /** `(tol_max - tol_min) / (6 * std)` when `std > 0`. */
  function CpOf(tolMin: Option<real>, tolMax: Option<real>, std: Option<real>): (r: Option<real>)
    ensures r.Some? <==> std.Some? && std.value > 0.0 && tolMin.Some? && tolMax.Some?
  {
    if std.Some? && std.value > 0.0 && tolMin.Some? && tolMax.Some? then
      Some((tolMax.value - tolMin.value) / (6.0 * std.value))
    else None
  }

  /** Cp spreads the tolerance range over six standard deviations. */
  lemma CpFormula(tolMin: Option<real>, tolMax: Option<real>, std: Option<real>)
    requires CpOf(tolMin, tolMax, std).Some?
    ensures CpOf(tolMin, tolMax, std).value * (6.0 * std.value) == tolMax.value - tolMin.value
  {
    DivMul(tolMax.value - tolMin.value, 6.0 * std.value);
  }

  /** `min(tol_max - mean, mean - tol_min) / (3 * std)` when `std > 0`. */
  function CpkOf(tolMin: Option<real>, tolMax: Option<real>, mean: Option<real>, std: Option<real>): (r: Option<real>)
    ensures r.Some? <==> std.Some? && std.value > 0.0 && PyMin(Sub(tolMax, mean), Sub(mean, tolMin)).Some?
  {
    var lo := PyMin(Sub(tolMax, mean), Sub(mean, tolMin));
    if std.Some? && std.value > 0.0 && lo.Some? then Some(lo.value / (3.0 * std.value))
    else None
  }

  /** Cpk is the distance from the mean to the nearer tolerance over three
      standard deviations. */
  lemma CpkFormula(tolMin: Option<real>, tolMax: Option<real>, mean: Option<real>, std: Option<real>)
    requires CpkOf(tolMin, tolMax, mean, std).Some?
    ensures CpkOf(tolMin, tolMax, mean, std).value * (3.0 * std.value)
      == PyMin(Sub(tolMax, mean), Sub(mean, tolMin)).value
  {
    DivMul(PyMin(Sub(tolMax, mean), Sub(mean, tolMin)).value, 3.0 * std.value);
  }

  /** The statistics row of one group: a group of fewer than two rows has no
      standard deviation and no capability indices; the indices are taken
      against the group's first-row tolerances. */
  function Summarize(g: seq<Obs>, sqrt: real -> real): (r: Summary)
    requires IsSqrt(sqrt)
    ensures r.n == |g| && r.mean == MeanOf(Values(g)) && r.pctOut == PctOut(g)
    ensures r.meanAbsGap == MeanAbs(Gaps(g))
    ensures |g| < 2 ==> r.std.None? && r.cp.None? && r.cpk.None?
    ensures |g| >= 2 ==> r.std == StdOf(Values(g), sqrt)
    ensures |g| >= 2 ==> r.cp == CpOf(g[0].tolMin, g[0].tolMax, r.std)
    ensures |g| >= 2 ==> r.cpk == CpkOf(g[0].tolMin, g[0].tolMax, r.mean, r.std)
  {
    var mean := MeanOf(Values(g));
    var absGap := MeanAbs(Gaps(g));
    if |g| < 2 then Summary(|g|, mean, None, absGap, None, None, PctOut(g))
    else
      var std := StdOf(Values(g), sqrt);
      Summary(|g|, mean, std, absGap, CpOf(g[0].tolMin, g[0].tolMax, std),
              CpkOf(g[0].tolMin, g[0].tolMax, mean, std), PctOut(g))
  }

  /** Cpk never exceeds Cp: the nearer tolerance is at most half the range
      away from the mean. */
  lemma CpkAtMostCp(tolMin: Option<real>, tolMax: Option<real>, mean: Option<real>, std: Option<real>)
    requires CpOf(tolMin, tolMax, std).Some? && CpkOf(tolMin, tolMax, mean, std).Some?
    ensures CpkOf(tolMin, tolMax, mean, std).value <= CpOf(tolMin, tolMax, std).value
  {
    var s := std.value;
    var lo := PyMin(Sub(tolMax, mean), Sub(mean, tolMin)).value;
    var range := tolMax.value - tolMin.value;
    assert 2.0 * lo <= range;
    var cp := CpOf(tolMin, tolMax, std).value;
    var cpk := CpkOf(tolMin, tolMax, mean, std).value;
    CpFormula(tolMin, tolMax, std);
    CpkFormula(tolMin, tolMax, mean, std);
    assert cpk * (6.0 * s) == 2.0 * lo by {
      assert cpk * (3.0 * s) == lo;
      assert cpk * (6.0 * s) == 2.0 * (cpk * (3.0 * s));
    }
    assert cpk * (6.0 * s) <= cp * (6.0 * s);
    ScaleCancel(cpk, cp, 6.0 * s);
  }

  lemma ScaleCancel(a: real, b: real, d: real)
    requires d > 0.0 && a * d <= b * d
    ensures a <= b
  {
  }

  /** Cpk never exceeds Cp in any statistics row. */
  lemma SummaryCpkAtMostCp(g: seq<Obs>, sqrt: real -> real)
    requires IsSqrt(sqrt)
    requires Summarize(g, sqrt).cp.Some? && Summarize(g, sqrt).cpk.Some?
    ensures Summarize(g, sqrt).cpk.value <= Summarize(g, sqrt).cp.value
  {
    var r := Summarize(g, sqrt);
    CpkAtMostCp(g[0].tolMin, g[0].tolMax, r.mean, r.std);
  }

  lemma DivMonotone(a: real, b: real, d: real)
    requires a <= b && d > 0.0
    ensures a / d <= b / d
  {
  }

  /** Adding a flagged row never lowers the out-of-tolerance share. */
  lemma PctOutMonotone(g: seq<Obs>, o: Obs)
    requires o.out && |g| > 0
    ensures PctOut(g + [o]).value >= PctOut(g).value
  {
    var g2 := g + [o];
    assert g2[..|g2| - 1] == g;
    PctOutBounds(g);
    PctOutBounds(g2);
    var n := |g| as real;
    var c := CountOut(g) as real;
    assert CountOut(g2) as real == c + 1.0;
    assert c <= n;
    var p1 := 100.0 * c / n;
    var p2 := 100.0 * (c + 1.0) / (n + 1.0);
    assert p1 <= p2 by {
      assert 100.0 * c * (n + 1.0) <= 100.0 * (c + 1.0) * n;
      CrossMultiply(100.0 * c, n, 100.0 * (c + 1.0), n + 1.0);
    }
  }

  lemma CrossMultiply(a: real, b: real, c: real, d: real)
    requires b > 0.0 && d > 0.0 && a * d <= c * b
    ensures a / b <= c / d
  {
    assert a / b == (a * d) / (b * d);
    assert c / d == (c * b) / (b * d);
  }

  /** Values that are all present and equal have zero standard deviation. */
  lemma ConstantHasZeroStd(xs: seq<Option<real>>, sqrt: real -> real)
    requires IsSqrt(sqrt) && |xs| >= 2 && xs[0].Some?
    requires forall i :: 0 <= i < |xs| ==> xs[i] == xs[0]
    ensures StdOf(xs, sqrt) == Some(0.0)
  {
    var p := Present(xs);
    assert forall i :: 0 <= i < |xs| ==> xs[i].Some?;
    assert |p| == |xs|;
    assert forall i, j :: 0 <= i < |p| && 0 <= j < |p| ==> p[i] == p[j];
    VarianceZeroIffConstant(p);
    assert SampleVariance(p) == 0.0;
    var s := StdOf(xs, sqrt).value;
    StdSquared(xs, sqrt);
    RootOfZero(s, SampleVariance(p));
  }

  /** A group whose values are all equal has no spread, so no capability
      indices. */
  lemma ConstantGroupHasNoCp(g: seq<Obs>, sqrt: real -> real)
    requires IsSqrt(sqrt) && |g| >= 2 && g[0].value.Some?
    requires forall i :: 0 <= i < |g| ==> g[i].value == g[0].value
    ensures Summarize(g, sqrt).cp.None? && Summarize(g, sqrt).cpk.None?
  {
    ConstantHasZeroStd(Values(g), sqrt);
  }

  // ---------------------------------------------------------------------
  // Grouping
  // ---------------------------------------------------------------------

  /** The rows of one key, in table order. */
  function GroupOf<K(==)>(rows: seq<(K, Obs)>, k: K): (r: seq<Obs>)
    ensures |r| <= |rows|
    ensures forall o :: o in r <==> (k, o) in rows
    decreases |rows|
  {
    if |rows| == 0 then []
    else GroupOf(rows[..|rows| - 1], k) + (if rows[|rows| - 1].0 == k then [rows[|rows| - 1].1] else [])
  }

  /** Which rows are filed under `k`. */
  function KeyMarks<K(==)>(rows: seq<(K, Obs)>, k: K): (m: seq<bool>)
    ensures |m| == |rows| && forall i :: 0 <= i < |rows| ==> m[i] == (rows[i].0 == k)
  {
    seq(|rows|, i requires 0 <= i < |rows| => rows[i].0 == k)
  }

  function Seconds<K>(rows: seq<(K, Obs)>): (r: seq<Obs>)
    ensures |r| == |rows| && forall i :: 0 <= i < |rows| ==> r[i] == rows[i].1
  {
    seq(|rows|, i requires 0 <= i < |rows| => rows[i].1)
  }

  /** Filing one more row under its key extends that key's group only. */
  lemma GroupOfAppend<K>(rows: seq<(K, Obs)>, x: (K, Obs), k: K)
    ensures GroupOf(rows + [x], k) == GroupOf(rows, k) + (if x.0 == k then [x.1] else [])
  {
    assert (rows + [x])[..|rows|] == rows;
  }

  /** A group holds the observation of every row filed under its key, each
      once and in table order, and nothing else. */
  lemma {:induction false} GroupOfSelects<K>(rows: seq<(K, Obs)>, k: K)
    ensures exists idx :: SelectedAt(Seconds(rows), KeyMarks(rows, k), idx, GroupOf(rows, k))
    decreases |rows|
  {
    if |rows| == 0 {
      assert GroupOf(rows, k) == [];
      assert SelectedAt(Seconds(rows), KeyMarks(rows, k), [], []);
    } else {
      var n := |rows| - 1;
      var pre := rows[..n];
      var x := rows[n];
      assert rows == pre + [x];
      GroupOfAppend(pre, x, k);
      GroupOfSelects(pre, k);
      var idx :| SelectedAt(Seconds(pre), KeyMarks(pre, k), idx, GroupOf(pre, k));
      SelectedAtAppend(Seconds(pre), KeyMarks(pre, k), idx, GroupOf(pre, k), x.1, x.0 == k);
      assert Seconds(pre) + [x.1] == Seconds(rows);
      assert KeyMarks(pre, k) + [x.0 == k] == KeyMarks(rows, k);
    }
  }

  function Keys<K(==)>(rows: seq<(K, Obs)>): set<K>
  {
    set i | 0 <= i < |rows| :: rows[i].0
  }

  /** `df.groupby(key).apply(compute_stats)`: one row per distinct key, each
      computed over that key's rows; no group is empty. */
  function StatsBy<K(==)>(rows: seq<(K, Obs)>, sqrt: real -> real): (t: map<K, Summary>)
    requires IsSqrt(sqrt)
    ensures t.Keys == Keys(rows)
    ensures forall k :: k in t ==> t[k] == Summarize(GroupOf(rows, k), sqrt) && t[k].n > 0
  {
    forall k | k in Keys(rows) ensures |GroupOf(rows, k)| > 0 {
      var i :| 0 <= i < |rows| && rows[i].0 == k;
      assert rows[i].1 in GroupOf(rows, k);
    }
    map k | k in Keys(rows) :: Summarize(GroupOf(rows, k), sqrt)
  }

  // ---------------------------------------------------------------------
  // A worked example: dimension R1, nominal 10.00, limits [9.9, 10.1]
  // ---------------------------------------------------------------------

  /** A reading of R1: its value, its gap to the nominal 10.00, and the
      limits 9.9 and 10.1, which it lies within. */
  function Sample(v: real): Obs
  {
    Obs(Some(v), Some(v - 10.0), false, Some(9.9), Some(10.1))
  }

  /** The readings 10.00, 10.02, 9.98 and 10.01. */
  function ExampleGroup(): seq<Obs>
  {
    [Sample(10.00), Sample(10.02), Sample(9.98), Sample(10.01)]
  }

  lemma ExampleValues()
    ensures Present(Values(ExampleGroup())) == [10.00, 10.02, 9.98, 10.01]
  {
    var vs := Values(ExampleGroup());
    assert vs == [Some(10.00), Some(10.02), Some(9.98), Some(10.01)];
    assert forall i :: 0 <= i < |vs| ==> vs[i].Some?;
    var p := Present(vs);
    assert |p| == 4 && p[0] == 10.00 && p[1] == 10.02 && p[2] == 9.98 && p[3] == 10.01;
  }

  lemma ExampleGaps()
    ensures Present(AbsAll(Gaps(ExampleGroup()))) == [0.0, 0.02, 0.02, 0.01]
  {
    var gs := AbsAll(Gaps(ExampleGroup()));
    assert gs == [Some(0.0), Some(0.02), Some(0.02), Some(0.01)];
    assert forall i :: 0 <= i < |gs| ==> gs[i].Some?;
    var p := Present(gs);
    assert |p| == 4 && p[0] == 0.0 && p[1] == 0.02 && p[2] == 0.02 && p[3] == 0.01;
  }

  lemma ExampleSum()
    ensures Sum([10.00, 10.02, 9.98, 10.01]) == 40.01
    ensures Sum([0.0, 0.02, 0.02, 0.01]) == 0.05
  {
    var p := [10.00, 10.02, 9.98, 10.01];
    assert p[..3] == [10.00, 10.02, 9.98];
    assert p[..3][..2] == [10.00, 10.02];
    assert p[..3][..2][..1] == [10.00];
    assert [10.00][..0] == [];
    assert Sum([10.00]) == 10.00;
    assert Sum([10.00, 10.02]) == 20.02;
    assert Sum([10.00, 10.02, 9.98]) == 30.00;
    var q := [0.0, 0.02, 0.02, 0.01];
    assert q[..3] == [0.0, 0.02, 0.02];
    assert q[..3][..2] == [0.0, 0.02];
    assert q[..3][..2][..1] == [0.0];
    assert [0.0][..0] == [];
    assert Sum([0.0]) == 0.0;
    assert Sum([0.0, 0.02]) == 0.02;
    assert Sum([0.0, 0.02, 0.02]) == 0.04;
  }

  lemma ExampleDeviation()
    ensures SquaredDeviation([10.00, 10.02, 9.98, 10.01], 10.0025) == 0.000875
  {
    var p := [10.00, 10.02, 9.98, 10.01];
    assert p[..3] == [10.00, 10.02, 9.98];
    assert p[..3][..2] == [10.00, 10.02];
    assert p[..3][..2][..1] == [10.00];
    assert [10.00][..0] == [];
    assert Square(10.00 - 10.0025) == 0.00000625;
    assert Square(10.02 - 10.0025) == 0.00030625;
    assert Square(9.98 - 10.0025) == 0.00050625;
    assert Square(10.01 - 10.0025) == 0.00005625;
    assert SquaredDeviation([10.00], 10.0025) == 0.00000625;
    assert SquaredDeviation([10.00, 10.02], 10.0025) == 0.0003125;
    assert SquaredDeviation([10.00, 10.02, 9.98], 10.0025) == 0.00081875;
  }

  /** Squares of non-negative numbers keep their order. */
  lemma SquareMonotone(a: real, b: real)
    requires 0.0 <= a <= b
    ensures a * a <= b * b
  {
    assert a * a <= a * b;
    assert a * b <= b * b;
  }

  /** A non-negative number whose square lies strictly between two squares
      lies strictly between their roots. */
  lemma RootBetween(s: real, lo: real, hi: real)
    requires 0.0 <= lo && 0.0 <= hi && 0.0 <= s
    requires lo * lo < s * s < hi * hi
    ensures lo < s < hi
  {
    if s <= lo {
      SquareMonotone(s, lo);
    }
    if hi <= s {
      SquareMonotone(hi, s);
    }
  }

  /** `x * d == c` with `d` strictly between `dl` and `dh` bounds `x`. */
  lemma QuotientBetween(x: real, d: real, c: real, dl: real, dh: real, xl: real, xh: real)
    requires 0.0 < dl < d < dh && x * d == c && 0.0 < xl && 0.0 < xh
    requires xl * dh <= c && c <= xh * dl
    ensures xl < x < xh
  {
  }

  lemma ExampleVariance()
    ensures SampleVariance([10.00, 10.02, 9.98, 10.01]) == 0.000875 / 3.0
  {
    var p := [10.00, 10.02, 9.98, 10.01];
    ExampleSum();
    assert Mean(p) == 10.0025;
    ExampleDeviation();
  }

  /** The example's standard deviation is about 0.0171. */
  lemma ExampleStd(sqrt: real -> real)
    requires IsSqrt(sqrt)
    ensures StdOf(Values(ExampleGroup()), sqrt).Some?
    ensures 0.017 < StdOf(Values(ExampleGroup()), sqrt).value < 0.0172
  {
    var p := [10.00, 10.02, 9.98, 10.01];
    ExampleValues();
    ExampleVariance();
    var v := SampleVariance(p);
    var s := sqrt(v);
    assert 0.0 <= s && s * s == v;
    assert StdOf(Values(ExampleGroup()), sqrt) == Some(s);
    RootBetween(s, 0.017, 0.0172);
  }

  /** Against [9.9, 10.1], a deviation of about 0.0171 gives Cp about 1.95. */
  lemma ExampleCp(std: real)
    requires 0.017 < std < 0.0172
    ensures CpOf(Some(9.9), Some(10.1), Some(std)).Some?
    ensures 1.93 < CpOf(Some(9.9), Some(10.1), Some(std)).value < 1.97
  {
    CpFormula(Some(9.9), Some(10.1), Some(std));
    QuotientBetween(CpOf(Some(9.9), Some(10.1), Some(std)).value, 6.0 * std, 10.1 - 9.9, 0.102, 0.1032, 1.93, 1.97);
  }

  /** With mean 10.0025 the nearer limit is 10.1, 0.0975 away, so Cpk is
      about 1.90. */
  lemma ExampleCpk(std: real)
    requires 0.017 < std < 0.0172
    ensures CpkOf(Some(9.9), Some(10.1), Some(10.0025), Some(std)).Some?
    ensures 1.88 < CpkOf(Some(9.9), Some(10.1), Some(10.0025), Some(std)).value < 1.92
  {
    assert PyMin(Sub(Some(10.1), Some(10.0025)), Sub(Some(10.0025), Some(9.9))) == Some(10.1 - 10.0025);
    CpkFormula(Some(9.9), Some(10.1), Some(10.0025), Some(std));
    QuotientBetween(CpkOf(Some(9.9), Some(10.1), Some(10.0025), Some(std)).value, 3.0 * std,
                    10.1 - 10.0025, 0.051, 0.0516, 1.88, 1.92);
  }

  /** The documented example: R1 read at 10.00, 10.02, 9.98 and 10.01
      against [9.9, 10.1] has mean 10.0025, mean absolute gap 0.0125, a
      standard deviation of about 0.0171, Cp about 1.95, Cpk about 1.90 and
      no row out of tolerance. */
  lemma WorkedExample(sqrt: real -> real)
    requires IsSqrt(sqrt)
    ensures var r := Summarize(ExampleGroup(), sqrt);
      r.n == 4 && r.mean == Some(10.0025) && r.meanAbsGap == Some(0.0125) && r.pctOut == Some(0.0)
    ensures var r := Summarize(ExampleGroup(), sqrt);
      r.std.Some? && 0.017 < r.std.value < 0.0172
    ensures var r := Summarize(ExampleGroup(), sqrt);
      r.cp.Some? && 1.93 < r.cp.value < 1.97
    ensures var r := Summarize(ExampleGroup(), sqrt);
      r.cpk.Some? && 1.88 < r.cpk.value < 1.92
  {
    var g := ExampleGroup();
    var r := Summarize(g, sqrt);
    ExampleMean();
    ExampleMeanAbs();
    ExamplePct();
    ExampleStd(sqrt);
    var s := r.std.value;
    assert g[0].tolMin == Some(9.9) && g[0].tolMax == Some(10.1);
    ExampleCp(s);
    ExampleCpk(s);
  }

  lemma ExampleMean()
    ensures MeanOf(Values(ExampleGroup())) == Some(10.0025)
  {
    var p := [10.00, 10.02, 9.98, 10.01];
    ExampleValues();
    ExampleSum();
    assert Mean(p) == 40.01 / 4.0;
  }

  lemma ExampleMeanAbs()
    ensures MeanAbs(Gaps(ExampleGroup())) == Some(0.0125)
  {
    var q := [0.0, 0.02, 0.02, 0.01];
    ExampleGaps();
    ExampleSum();
    assert Mean(q) == 0.05 / 4.0;
  }

  lemma ExamplePct()
    ensures PctOut(ExampleGroup()) == Some(0.0)
  {
    NoneFlagged(ExampleGroup());
  }

  lemma {:induction false} NoneFlagged(g: seq<Obs>)
    requires forall i :: 0 <= i < |g| ==> !g[i].out
    ensures CountOut(g) == 0
    decreases |g|
  {
    if |g| > 0 {
      NoneFlagged(g[..|g| - 1]);
    }
  }
}
