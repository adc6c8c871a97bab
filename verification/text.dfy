/** The string operations the pipeline relies on, with Python's semantics:
    `str.lower`, `in`, `str.replace`, `str.strip`, `str.split(sep)[-1]`,
    and the separator split used on dimension names. */
module Text {
  import opened Base

  // ---------------------------------------------------------------------
  // Case folding
  // ---------------------------------------------------------------------

  /** `str.lower` on one character, for ASCII and the Latin-1 capitals
      (U+00C0..U+00DE except the multiplication sign U+00D7). */
  function LowerChar(c: char): char
  {
    if 'A' <= c <= 'Z' || ('\U{C0}' <= c <= '\U{DE}' && c != '\U{D7}')
    then (c as int + 32) as char
    else c
  }

  function Lower(s: string): (r: string)
    ensures |r| == |s|
    ensures forall i :: 0 <= i < |s| ==> r[i] == LowerChar(s[i])
  {
    seq(|s|, i requires 0 <= i < |s| => LowerChar(s[i]))
  }

  /** Lower-casing twice is lower-casing once. */
  lemma LowerIdempotent(s: string)
    ensures Lower(Lower(s)) == Lower(s)
  {
    assert forall c: char :: LowerChar(LowerChar(c)) == LowerChar(c);
  }

  // ---------------------------------------------------------------------
  // Substrings
  // ---------------------------------------------------------------------

  predicate StartsWith(s: string, p: string)
  {
    |p| <= |s| && s[..|p|] == p
  }

  /** Python's `p in s`. */
  predicate Contains(s: string, p: string)
    decreases |s|
  {
    StartsWith(s, p) || (|s| > 0 && Contains(s[1..], p))
  }

  lemma {:induction false} ShortNeverContains(s: string, p: string)
    requires |s| < |p|
    ensures !Contains(s, p)
  {
    if |s| > 0 {
      ShortNeverContains(s[1..], p);
    }
  }

  /** A string none of whose characters starts `p` cannot contain `p`. */
  lemma {:induction false} NoFirstCharNoContains(s: string, p: string)
    requires |p| > 0
    requires forall i :: 0 <= i < |s| ==> s[i] != p[0]
    ensures !Contains(s, p)
  {
    if |s| > 0 {
      if |p| <= |s| {
        assert s[..|p|][0] == s[0];
      }
      NoFirstCharNoContains(s[1..], p);
    }
  }

  /** Python's `s.replace(p, rep)`: a left-to-right scan that replaces every
      non-overlapping occurrence of `p`. */
  function ReplaceAll(s: string, p: string, rep: string): string
    requires |p| > 0
    decreases |s|
  {
    if |s| == 0 then ""
    else if StartsWith(s, p) then rep + ReplaceAll(s[|p|..], p, rep)
    else [s[0]] + ReplaceAll(s[1..], p, rep)
  }

  /** Replacing a pattern that does not occur changes nothing. */
  lemma {:induction false} ReplaceAllAbsent(s: string, p: string, rep: string)
    requires |p| > 0
    requires !Contains(s, p)
    ensures ReplaceAll(s, p, rep) == s
  {
    if |s| > 0 {
      ReplaceAllAbsent(s[1..], p, rep);
    }
  }

  /** Replacing one character by another maps every position independently. */
  lemma {:induction false} ReplaceOneChar(s: string, a: char, b: char)
    ensures |ReplaceAll(s, [a], [b])| == |s|
    ensures forall i :: 0 <= i < |s| ==>
      ReplaceAll(s, [a], [b])[i] == (if s[i] == a then b else s[i])
  {
    if |s| > 0 {
      ReplaceOneChar(s[1..], a, b);
      var r := ReplaceAll(s, [a], [b]);
      if StartsWith(s, [a]) {
        assert s[0] == a;
        assert r == [b] + ReplaceAll(s[1..], [a], [b]);
      } else {
        assert s[0] != a;
        assert r == [s[0]] + ReplaceAll(s[1..], [a], [b]);
      }
    }
  }

  /** An occurrence at the front is replaced. */
  lemma ReplaceAllAtFront(p: string, t: string, rep: string)
    requires |p| > 0
    ensures ReplaceAll(p + t, p, rep) == rep + ReplaceAll(t, p, rep)
  {
    var s := p + t;
    assert s[..|p|] == p;
    assert s[|p|..] == t;
  }

  /** Characters that cannot begin the pattern are copied unchanged. */
  lemma {:induction false} ReplaceAllSkipsPrefix(a: string, t: string, p: string, rep: string)
    requires |p| > 0
    requires forall i :: 0 <= i < |a| ==> a[i] != p[0]
    ensures ReplaceAll(a + t, p, rep) == a + ReplaceAll(t, p, rep)
    decreases |a|
  {
    if |a| > 0 {
      var s := a + t;
      assert s[0] == a[0] != p[0];
      assert !StartsWith(s, p) by {
        if |p| <= |s| {
          assert s[..|p|][0] == s[0];
        }
      }
      assert s[1..] == a[1..] + t;
      ReplaceAllSkipsPrefix(a[1..], t, p, rep);
    } else {
      assert a + t == t;
    }
  }

  /** After replacing one character by a different one, it no longer occurs. */
  lemma ReplacedCharGone(s: string, a: char, b: char)
    requires a != b
    ensures !Contains(ReplaceAll(s, [a], [b]), [a])
  {
    var r := ReplaceAll(s, [a], [b]);
    ReplaceOneChar(s, a, b);
    NoFirstCharNoContains(r, [a]);
  }

  // ---------------------------------------------------------------------
  // Whitespace
  // ---------------------------------------------------------------------

  /** Python's `str.isspace` on one character. */
  predicate IsSpace(c: char)
  {
    || c == ' '
    || '\t' <= c <= '\r'
    || '\U{1C}' <= c <= '\U{1F}'
    || c == '\U{85}' || c == '\U{A0}' || c == '\U{1680}'
    || '\U{2000}' <= c <= '\U{200A}'
    || c == '\U{2028}' || c == '\U{2029}' || c == '\U{202F}'
    || c == '\U{205F}' || c == '\U{3000}'
  }

  /** `str.lstrip()`. */
  function TrimStart(s: string): string
    decreases |s|
  {
    if |s| > 0 && IsSpace(s[0]) then TrimStart(s[1..]) else s
  }

  /** `str.rstrip()`. */
  function TrimEnd(s: string): string
    decreases |s|
  {
    if |s| > 0 && IsSpace(s[|s| - 1]) then TrimEnd(s[..|s| - 1]) else s
  }

  /** `lstrip` keeps a suffix that does not start with whitespace and cuts
      only whitespace. */
  lemma {:induction false} TrimStartSpec(s: string)
    ensures |TrimStart(s)| <= |s| && TrimStart(s) == s[|s| - |TrimStart(s)|..]
    ensures |TrimStart(s)| > 0 ==> !IsSpace(TrimStart(s)[0])
    ensures forall i :: 0 <= i < |s| - |TrimStart(s)| ==> IsSpace(s[i])
    decreases |s|
  {
    if |s| > 0 && IsSpace(s[0]) {
      TrimStartSpec(s[1..]);
    }
  }

  /** `rstrip` keeps a prefix that does not end with whitespace and cuts only
      whitespace. */
  lemma {:induction false} TrimEndSpec(s: string)
    ensures |TrimEnd(s)| <= |s| && TrimEnd(s) == s[..|TrimEnd(s)|]
    ensures |TrimEnd(s)| > 0 ==> !IsSpace(TrimEnd(s)[|TrimEnd(s)| - 1])
    ensures forall i :: |TrimEnd(s)| <= i < |s| ==> IsSpace(s[i])
    decreases |s|
  {
    if |s| > 0 && IsSpace(s[|s| - 1]) {
      TrimEndSpec(s[..|s| - 1]);
    }
  }

  /** Python's `str.strip()`. */
  function Strip(s: string): string
  {
    TrimStart(TrimEnd(s))
  }

  /** How many leading characters `Strip` cuts off. */
  function StripStart(s: string): nat
  {
    TrimEndSpec(s);
    TrimStartSpec(TrimEnd(s));
    |TrimEnd(s)| - |TrimStart(TrimEnd(s))|
  }

  /** `strip` keeps the longest middle slice of `s` that neither starts nor
      ends with whitespace; everything it cuts off is whitespace. */
  lemma StripSpec(s: string)
    ensures |Strip(s)| > 0 ==> !IsSpace(Strip(s)[0]) && !IsSpace(Strip(s)[|Strip(s)| - 1])
    ensures StripStart(s) + |Strip(s)| <= |s|
    ensures Strip(s) == s[StripStart(s)..StripStart(s) + |Strip(s)|]
    ensures forall i :: 0 <= i < StripStart(s) ==> IsSpace(s[i])
    ensures forall i :: StripStart(s) + |Strip(s)| <= i < |s| ==> IsSpace(s[i])
  {
    var e := TrimEnd(s);
    var r := TrimStart(e);
    TrimEndSpec(s);
    TrimStartSpec(e);
    assert r == s[|e| - |r|..|e|];
    assert forall i :: 0 <= i < |e| - |r| ==> IsSpace(s[i]) by {
      forall i | 0 <= i < |e| - |r| ensures IsSpace(s[i]) {
        assert s[i] == e[i];
      }
    }
  }

  /** A string that neither starts nor ends with whitespace is its own strip. */
  lemma StripUnchanged(s: string)
    requires |s| > 0 ==> !IsSpace(s[0]) && !IsSpace(s[|s| - 1])
    ensures Strip(s) == s
  {
  }

  lemma StripIdempotent(s: string)
    ensures Strip(Strip(s)) == Strip(s)
  {
    StripSpec(s);
    StripUnchanged(Strip(s));
  }

  // ---------------------------------------------------------------------
  // Splitting
  // ---------------------------------------------------------------------

  /** The text after the last separator met by Python's left-to-right
      `s.split(p)`, or None when `p` does not occur. */
  function AfterLast(s: string, p: string): Option<string>
    requires |p| > 0
    decreases |s|
  {
    if |s| < |p| then None
    else if s[..|p|] == p then
      match AfterLast(s[|p|..], p)
      case None => Some(s[|p|..])
      case Some(t) => Some(t)
    else AfterLast(s[1..], p)
  }

  /** Python's `s.split(p)[-1]`. */
  function LastPiece(s: string, p: string): string
    requires |p| > 0
  {
    match AfterLast(s, p)
    case None => s
    case Some(t) => t
  }

  /** A separator is found exactly when it occurs. */
  lemma {:induction false} AfterLastFound(s: string, p: string)
    requires |p| > 0
    ensures AfterLast(s, p).Some? <==> Contains(s, p)
    decreases |s|
  {
    if |s| < |p| {
      ShortNeverContains(s, p);
    } else if s[..|p|] == p {
    } else {
      AfterLastFound(s[1..], p);
    }
  }

  /** Characters that cannot begin the separator are skipped. */
  lemma {:induction false} AfterLastSkipsPrefix(b: string, t: string, p: string)
    requires |p| > 0
    requires forall i :: 0 <= i < |b| ==> b[i] != p[0]
    ensures AfterLast(b + t, p) == AfterLast(t, p)
    decreases |b|
  {
    if |b| > 0 {
      var s := b + t;
      if |s| < |p| {
        assert |t| < |p|;
      } else {
        assert s[0] == b[0] != p[0];
        assert s[..|p|] != p;
        assert s[1..] == b[1..] + t;
        AfterLastSkipsPrefix(b[1..], t, p);
      }
    } else {
      assert b + t == t;
    }
  }

  /** Right after a separator, text free of it is the last piece. */
  lemma AfterLastOfSeparator(p: string, d: string)
    requires |p| > 0
    requires !Contains(d, p)
    ensures AfterLast(p + d, p) == Some(d)
  {
    var s := p + d;
    assert s[..|p|] == p;
    assert s[|p|..] == d;
    AfterLastFound(d, p);
  }
}
