/** The keyword heuristic that proposes a functional type for a dimension
    from its name. */
module CoteType {
  import opened Text

  const Rayon: string := "Rayon"
  const DiametreExterieur: string := "Diam\U{E8}tre ext\U{E9}rieur"
  const Epaisseur: string := "\U{C9}paisseur"
  const Longueur: string := "Longueur"
  const Alesage: string := "Al\U{E9}sage"
  const Angle: string := "Angle"
  const Autre: string := "Autre"

  /** The closed list of type labels offered to the operator. */
  const TypesPossibles: seq<string> :=
    [DiametreExterieur, Alesage, Epaisseur, Rayon, Longueur, Angle, Autre]

  /** `detect_type`: lower-case the name, then test keyword groups in a fixed
      order; the first group with a keyword in the name decides. */
  function DetectType(name: string): (t: string)
    ensures t in TypesPossibles
  {
    var n := Lower(name);
    if Contains(n, "rayon") then Rayon
    else if Contains(n, "diam") || Contains(n, "\U{F8}") then DiametreExterieur
    else if Contains(n, "\U{E9}pais") || Contains(n, "patin") then Epaisseur
    else if Contains(n, "largeur") || Contains(n, "hauteur") || Contains(n, "gorge") then Longueur
    else if Contains(n, "per\U{E7}age") then DiametreExterieur
    else if Contains(n, "al\U{E9}sage") then Alesage
    else if Contains(n, "angle") then Angle
    else Autre
  }

  /** A keyword group and the label it proposes. */
  datatype Rule = Rule(keywords: seq<string>, verdict: string)

  const R0: Rule := Rule(["rayon"], Rayon)
  const R1: Rule := Rule(["diam", "\U{F8}"], DiametreExterieur)
  const R2: Rule := Rule(["\U{E9}pais", "patin"], Epaisseur)
  const R3: Rule := Rule(["largeur", "hauteur", "gorge"], Longueur)
  const R4: Rule := Rule(["per\U{E7}age"], DiametreExterieur)
  const R5: Rule := Rule(["al\U{E9}sage"], Alesage)
  const R6: Rule := Rule(["angle"], Angle)

  /** The heuristic written as a priority-ordered table. */
  const Rules: seq<Rule> := [R0, R1, R2, R3, R4, R5, R6]

  /** Some keyword of the list occurs in `n`. */
  predicate AnyKeyword(n: string, keywords: seq<string>)
  {
    |keywords| > 0 && (Contains(n, keywords[0]) || AnyKeyword(n, keywords[1..]))
  }

  predicate Matches(r: Rule, n: string)
  {
    AnyKeyword(n, r.keywords)
  }

  /** The label of the first rule that matches, "Autre" when none does. */
  function FirstMatch(rules: seq<Rule>, n: string): string
  {
    if |rules| == 0 then Autre
    else if Matches(rules[0], n) then rules[0].verdict
    else FirstMatch(rules[1..], n)
  }

  /** `detect_type` is exactly the first-match reading of the priority table. */
  lemma {:induction false} DetectTypeIsFirstMatch(name: string)
    ensures DetectType(name) == FirstMatch(Rules, Lower(name))
  {
    var n := Lower(name);
    OneKeyword(n, "rayon");
    TwoKeywords(n, "diam", "\U{F8}");
    TwoKeywords(n, "\U{E9}pais", "patin");
    ThreeKeywords(n, "largeur", "hauteur", "gorge");
    OneKeyword(n, "per\U{E7}age");
    OneKeyword(n, "al\U{E9}sage");
    OneKeyword(n, "angle");
    assert Rules[1..] == [R1, R2, R3, R4, R5, R6];
    assert Rules[1..][1..] == [R2, R3, R4, R5, R6];
    assert Rules[1..][1..][1..] == [R3, R4, R5, R6];
    assert Rules[1..][1..][1..][1..] == [R4, R5, R6];
    assert Rules[1..][1..][1..][1..][1..] == [R5, R6];
    assert Rules[1..][1..][1..][1..][1..][1..] == [R6];
    assert Rules[1..][1..][1..][1..][1..][1..][1..] == [];
    var fm := FirstMatch(Rules, n);
    assert fm == if Matches(R0, n) then Rayon else FirstMatch([R1, R2, R3, R4, R5, R6], n);
    assert FirstMatch([R1, R2, R3, R4, R5, R6], n)
        == if Matches(R1, n) then DiametreExterieur else FirstMatch([R2, R3, R4, R5, R6], n);
    assert FirstMatch([R2, R3, R4, R5, R6], n)
        == if Matches(R2, n) then Epaisseur else FirstMatch([R3, R4, R5, R6], n);
    assert FirstMatch([R3, R4, R5, R6], n)
        == if Matches(R3, n) then Longueur else FirstMatch([R4, R5, R6], n);
    assert FirstMatch([R4, R5, R6], n)
        == if Matches(R4, n) then DiametreExterieur else FirstMatch([R5, R6], n);
    assert FirstMatch([R5, R6], n) == if Matches(R5, n) then Alesage else FirstMatch([R6], n);
    assert FirstMatch([R6], n) == if Matches(R6, n) then Angle else FirstMatch([], n);
  }

  lemma OneKeyword(n: string, a: string)
    ensures AnyKeyword(n, [a]) <==> Contains(n, a)
  {
    assert [a][1..] == [];
  }

  lemma TwoKeywords(n: string, a: string, b: string)
    ensures AnyKeyword(n, [a, b]) <==> Contains(n, a) || Contains(n, b)
  {
    assert [a, b][1..] == [b];
    OneKeyword(n, b);
  }

  lemma ThreeKeywords(n: string, a: string, b: string, c: string)
    ensures AnyKeyword(n, [a, b, c]) <==> Contains(n, a) || Contains(n, b) || Contains(n, c)
  {
    assert [a, b, c][1..] == [b, c];
    TwoKeywords(n, b, c);
  }

  /** "Autre" is returned exactly when no keyword of any group occurs. */
  lemma {:induction false} AutreIffNoKeyword(name: string)
    ensures DetectType(name) == Autre <==> forall r | r in Rules :: !Matches(r, Lower(name))
  {
    DetectTypeIsFirstMatch(name);
    FirstMatchAutre(Rules, Lower(name));
  }

  lemma {:induction false} FirstMatchAutre(rules: seq<Rule>, n: string)
    requires forall r | r in rules :: r.verdict != Autre
    ensures FirstMatch(rules, n) == Autre <==> forall r | r in rules :: !Matches(r, n)
  {
    if |rules| > 0 {
      FirstMatchAutre(rules[1..], n);
      assert forall r | r in rules :: r == rules[0] || r in rules[1..];
    }
  }

  /** The heuristic ignores case: a name and its lower-case form get one type. */
  lemma {:induction false} DetectTypeCaseInsensitive(name: string)
    ensures DetectType(Lower(name)) == DetectType(name)
  {
    LowerIdempotent(name);
  }

  /** First match wins: a radius whose name also mentions a diameter is a radius. */
  lemma {:induction false} RadiusBeforeDiameter(name: string)
    requires Contains(Lower(name), "rayon") && Contains(Lower(name), "diam")
    ensures DetectType(name) == Rayon
    ensures FirstMatch(Rules[1..], Lower(name)) == DiametreExterieur
  {
    var n := Lower(name);
    assert Matches(Rules[1..][0], n) by {
      assert "diam" in Rules[1..][0].keywords;
    }
  }
}
