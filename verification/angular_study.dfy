/** The angular study of the development page: the angle of a radius is
    read from the number after "ANG" in its name, the radius rows of the
    first row's order are put in angle order, and the four polar traces are
    closed on their first point. */
module AngularStudy {
  import opened Base
  import opened Text
  import opened Numbers
  import opened Sheet
  import opened Sorting

  const Marker: string := "ANG"
  const RadiusWord: string := "Rayon"

  /** `extraire_angle`: `(n - 1) * 360 / 12` for the integer `n` after the
      last "ANG", 0 when there is no "ANG" or that text is not an integer. */
  function ExtractAngle(name: string): real
  {
    if !Contains(name, Marker) then 0.0
    else match ParseInt(LastPiece(name, Marker))
      case None => 0.0
      case Some(n) => ((n - 1) * 360) as real / 12.0
  }

  /** Positions are twelve to the turn: `ANG<n>` is `(n - 1) * 30` degrees,
      whatever precedes the marker. */
  lemma ExtractAngleOf(prefix: string, n: int)
    ensures ExtractAngle(prefix + Marker + IntToString(n)) == (n - 1) as real * 30.0
  {
    var d := IntToString(n);
    NumberHasNoA(n);
    AfterLastMarker(prefix, d);
    AfterLastFound(prefix + Marker + d, Marker);
    IntRoundTrip(n);
  }

  /** "ANG" cannot overlap itself, so whatever precedes its last occurrence,
      the text after it is the last piece when that text has no "A". */
  lemma {:induction false} AfterLastMarker(b: string, d: string)
    requires forall i :: 0 <= i < |d| ==> d[i] != 'A'
    ensures AfterLast(b + Marker + d, Marker) == Some(d)
    decreases |b|
  {
    var s := b + Marker + d;
    if |b| == 0 {
      assert s == Marker + d;
      NoFirstCharNoContains(d, Marker);
      AfterLastOfSeparator(Marker, d);
    } else {
      // a marker begun inside `b` would need "A" where "ANG" has "N" or "G"
      assert |b| < 3 ==> s[..3][|b|] == 'A' && Marker[|b|] != 'A';
      if s[..3] != Marker {
        assert s[1..] == b[1..] + Marker + d;
        AfterLastMarker(b[1..], d);
      } else if |b| >= 3 {
        assert s[3..] == b[3..] + Marker + d;
        AfterLastMarker(b[3..], d);
      }
    }
  }

  lemma NumberHasNoA(n: int)
    ensures forall i :: 0 <= i < |IntToString(n)| ==> IntToString(n)[i] != 'A'
  {
    var m: nat := if n < 0 then -n else n;
    assert AllDigits(NatToString(m));
    if n < 0 {
      assert IntToString(n) == "-" + NatToString(m);
      forall i | 0 <= i < |IntToString(n)| ensures IntToString(n)[i] != 'A' {
        if i > 0 {
          assert IntToString(n)[i] == NatToString(m)[i - 1];
        }
      }
    }
  }

  /** "Rayon ANG3" sits at 60 degrees. */
  lemma ThirdPosition()
    ensures ExtractAngle("Rayon ANG3") == 60.0
  {
    assert IntToString(3) == "3";
    ExtractAngleOf("Rayon ", 3);
    assert "Rayon " + Marker + "3" == "Rayon ANG3";
  }

  /** A name without the marker, or with a non-integer after it, is at 0. */
  lemma ExtractAngleDefaults(name: string)
    requires !Contains(name, Marker) || ParseInt(LastPiece(name, Marker)).None?
    ensures ExtractAngle(name) == 0.0
  {
  }

  // ---------------------------------------------------------------------
  // Target rows and their polar traces
  // ---------------------------------------------------------------------

  /** One pasted row, as used here; an empty `of` or `name` is missing. */
  datatype Reading = Reading(of: string, name: string, mesure: Option<real>, tolMin: Option<real>, tolMax: Option<real>)

  /** A radius row of order `of`: a missing name matches no text and a
      missing order equals nothing. */
  predicate Targeted(r: Reading, of: string)
  {
    !IsNull(r.name) && Contains(r.name, Marker) && Contains(r.name, RadiusWord)
    && !IsNull(of) && r.of == of
  }

  function Targets(rows: seq<Reading>, of: string): (r: seq<Reading>)
    ensures forall x :: x in r <==> x in rows && Targeted(x, of)
    decreases |rows|
  {
    if |rows| == 0 then []
    else
      var n := |rows| - 1;
      assert rows == rows[..n] + [rows[n]];
      Targets(rows[..n], of) + (if Targeted(rows[n], of) then [rows[n]] else [])
  }

  function AngleKey(r: Reading): real
  {
    ExtractAngle(r.name)
  }

  /** The four traces: angles, measures and both bounds. */
  datatype Star = Star(angles: seq<real>, mesures: seq<Option<real>>, tolPlus: seq<Option<real>>, tolMinus: seq<Option<real>>)

  datatype StudyOutcome =
    | EmptyTable     // the first row's order cannot be read
    | NoTarget       // no radius row of that order
    | Study(ordered: seq<Reading>, star: Star)

  function Project(rs: seq<Reading>): (s: Star)
    ensures |s.angles| == |s.mesures| == |s.tolPlus| == |s.tolMinus| == |rs|
    ensures forall i :: 0 <= i < |rs| ==>
      s.angles[i] == AngleKey(rs[i]) && s.mesures[i] == rs[i].mesure && s.tolPlus[i] == rs[i].tolMax && s.tolMinus[i] == rs[i].tolMin
  {
    Star(seq(|rs|, i requires 0 <= i < |rs| => AngleKey(rs[i])),
         seq(|rs|, i requires 0 <= i < |rs| => rs[i].mesure),
         seq(|rs|, i requires 0 <= i < |rs| => rs[i].tolMax),
         seq(|rs|, i requires 0 <= i < |rs| => rs[i].tolMin))
  }

  /** The target rows of the first row's order, in angle order, with every
      trace closed on its first point. */
  function StudyOf(rows: seq<Reading>): (r: StudyOutcome)
    ensures r.EmptyTable? <==> |rows| == 0
    ensures r.Study? ==> multiset(r.ordered) == multiset(Targets(rows, rows[0].of))
    ensures r.Study? ==> SortedBy(r.ordered, AngleKey)
  {
    if |rows| == 0 then EmptyTable
    else
      var ts := Targets(rows, rows[0].of);
      if |ts| == 0 then NoTarget
      else
        var ordered := SortBy(ts, AngleKey);
        Study(ordered, ClosedStar(ordered))
  }

  /** The four traces of some rows, each closed on its first point. */
  function ClosedStar(rs: seq<Reading>): Star
    requires |rs| > 0
  {
    var p := Project(rs);
    Star(Close(p.angles), Close(p.mesures), Close(p.tolPlus), Close(p.tolMinus))
  }

  /** Closing the projected traces of some rows: one more point than rows,
      the last repeating the first, and point `i` of every trace from row `i`. */
  lemma ClosedProjection(rs: seq<Reading>)
    requires |rs| > 0
    ensures var s := ClosedStar(rs);
      var k := |rs|;
      |s.angles| == |s.mesures| == |s.tolPlus| == |s.tolMinus| == k + 1
      && s.angles[k] == s.angles[0] && s.mesures[k] == s.mesures[0]
      && s.tolPlus[k] == s.tolPlus[0] && s.tolMinus[k] == s.tolMinus[0]
      && forall i :: 0 <= i < k ==>
        s.angles[i] == AngleKey(rs[i]) && s.mesures[i] == rs[i].mesure
        && s.tolPlus[i] == rs[i].tolMax && s.tolMinus[i] == rs[i].tolMin
    ensures SortedBy(rs, AngleKey) ==>
      forall i, j :: 0 <= i < j < |rs| ==> ClosedStar(rs).angles[i] <= ClosedStar(rs).angles[j]
  {
    var p := Project(rs);
    var s := ClosedStar(rs);
    forall i | 0 <= i < |rs|
      ensures s.angles[i] == AngleKey(rs[i]) && s.mesures[i] == rs[i].mesure
      ensures s.tolPlus[i] == rs[i].tolMax && s.tolMinus[i] == rs[i].tolMin
    {
      assert s.angles[i] == p.angles[i] && s.mesures[i] == p.mesures[i];
      assert s.tolPlus[i] == p.tolPlus[i] && s.tolMinus[i] == p.tolMinus[i];
    }
  }

  /** The closed traces have one more point than there are target rows,
      end where they start, and point `i` of every trace comes from the same
      row; the angles never decrease before the closing point. */
  lemma {:induction false} StudyShape(rows: seq<Reading>)
    requires StudyOf(rows).Study?
    ensures var s := StudyOf(rows);
      var k := |s.ordered|;
      k == |Targets(rows, rows[0].of)| > 0
      && |s.star.angles| == |s.star.mesures| == |s.star.tolPlus| == |s.star.tolMinus| == k + 1
      && s.star.angles[k] == s.star.angles[0] && s.star.mesures[k] == s.star.mesures[0]
      && s.star.tolPlus[k] == s.star.tolPlus[0] && s.star.tolMinus[k] == s.star.tolMinus[0]
    ensures var s := StudyOf(rows);
      forall i :: 0 <= i < |s.ordered| ==>
        s.ordered[i] in rows && Targeted(s.ordered[i], rows[0].of)
        && s.star.angles[i] == ExtractAngle(s.ordered[i].name) && s.star.mesures[i] == s.ordered[i].mesure
        && s.star.tolPlus[i] == s.ordered[i].tolMax && s.star.tolMinus[i] == s.ordered[i].tolMin
    ensures var s := StudyOf(rows);
      forall i, j :: 0 <= i < j < |s.ordered| ==> s.star.angles[i] <= s.star.angles[j]
  {
    var ordered := SortBy(Targets(rows, rows[0].of), AngleKey);
    var star := ClosedStar(ordered);
    assert StudyOf(rows) == Study(ordered, star);
    OrderedTargets(rows, rows[0].of);
    ClosedProjection(ordered);
  }

  /** The target rows in angle order are the target rows, each a radius row
      of the table. */
  lemma OrderedTargets(rows: seq<Reading>, of: string)
    ensures var ordered := SortBy(Targets(rows, of), AngleKey);
      |ordered| == |Targets(rows, of)|
      && forall i :: 0 <= i < |ordered| ==> ordered[i] in rows && Targeted(ordered[i], of)
  {
    var ts := Targets(rows, of);
    var ordered := SortBy(ts, AngleKey);
    assert |multiset(ordered)| == |multiset(ts)|;
    forall i | 0 <= i < |ordered| ensures ordered[i] in rows && Targeted(ordered[i], of) {
      assert ordered[i] in multiset(ts);
    }
  }
}
