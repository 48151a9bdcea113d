/** The java.lang.String operations the ledger relies on: trim, isBlank,
    toLowerCase (ASCII letters only) and contains. */
module Text {

  /** Character.isWhitespace: the Unicode space, line and paragraph
      separators except the non-breaking ones, plus the C0 controls
      TAB, LF, VT, FF, CR and FS, GS, RS, US. */
  predicate IsWhitespace(c: char) {
    || ('\t' <= c <= '\r')
    || ('\U{1C}' <= c <= ' ')
    || c == '\U{1680}'
    || ('\U{2000}' <= c <= '\U{2006}')
    || ('\U{2008}' <= c <= '\U{200A}')
    || c == '\U{2028}' || c == '\U{2029}'
    || c == '\U{205F}' || c == '\U{3000}'
  }

  /** String.isBlank: empty or whitespace only. */
  predicate IsBlank(s: string) {
    forall i :: 0 <= i < |s| ==> IsWhitespace(s[i])
  }

  /** String.trim strips every leading and trailing character whose code is
      at most U+0020 (all ASCII controls and the space). */
  predicate IsTrimmed(c: char) {
    c <= ' '
  }

  function TrimStart(s: string): (r: string)
    ensures |r| <= |s| && r == s[|s| - |r|..]
    ensures forall i :: 0 <= i < |s| - |r| ==> IsTrimmed(s[i])
    ensures r == [] || !IsTrimmed(r[0])
  {
    if |s| > 0 && IsTrimmed(s[0]) then TrimStart(s[1..]) else s
  }

  function TrimEnd(s: string): (r: string)
    ensures |r| <= |s| && r == s[..|r|]
    ensures forall i :: |r| <= i < |s| ==> IsTrimmed(s[i])
    ensures r == [] || !IsTrimmed(r[|r| - 1])
  {
    if |s| > 0 && IsTrimmed(s[|s| - 1]) then TrimEnd(s[..|s| - 1]) else s
  }

  /** String.trim: the longest slice of s that starts and ends with a
      character above U+0020, everything cut off being at most U+0020. */
  function Trim(s: string): (r: string)
  {
    TrimEnd(TrimStart(s))
  }

  /** r is s[lo..lo + |r|], with only trimmable characters cut off on
      either side. */
  predicate SliceWithTrimmableMargins(s: string, r: string, lo: int) {
    && 0 <= lo && lo + |r| <= |s| && r == s[lo..lo + |r|]
    && (forall i :: 0 <= i < lo ==> IsTrimmed(s[i]))
    && (forall i :: lo + |r| <= i < |s| ==> IsTrimmed(s[i]))
  }

  /** What trim keeps: a contiguous slice of s with nothing but trimmable
      characters around it and a non-trimmable character at each end. */
  lemma TrimIsSlice(s: string)
    ensures exists lo :: SliceWithTrimmableMargins(s, Trim(s), lo)
    ensures var r := Trim(s); r == [] || (!IsTrimmed(r[0]) && !IsTrimmed(r[|r| - 1]))
  {
    var t := TrimStart(s);
    var lo := |s| - |t|;
    TrimEndOfSuffix(s, t, lo);
    TrimKeepsEnds(t);
    assert Trim(s) == TrimEnd(t);
    assert SliceWithTrimmableMargins(s, Trim(s), lo);
  }

  /** Trimming the end of the suffix s[lo..] leaves a slice of s whose
      right margin is trimmable. */
  lemma TrimEndOfSuffix(s: string, t: string, lo: int)
    requires 0 <= lo <= |s| && t == s[lo..]
    requires forall i :: 0 <= i < lo ==> IsTrimmed(s[i])
    ensures SliceWithTrimmableMargins(s, TrimEnd(t), lo)
  {
    var r := TrimEnd(t);
    assert r == t[..|r|];
    assert r == s[lo..lo + |r|];
    forall i | lo + |r| <= i < |s| ensures IsTrimmed(s[i]) {
      assert s[i] == t[i - lo];
    }
  }

  /** Trimming the end of a string that starts with a non-trimmable
      character keeps that first character. */
  lemma TrimKeepsEnds(t: string)
    requires t == [] || !IsTrimmed(t[0])
    ensures var r := TrimEnd(t); r == [] || (!IsTrimmed(r[0]) && !IsTrimmed(r[|r| - 1]))
  {
    var r := TrimEnd(t);
    if r != [] {
      assert r[0] == t[0];
    }
  }

  /** Trimming twice is trimming once. */
  lemma TrimIdempotent(s: string)
    ensures Trim(Trim(s)) == Trim(s)
  {
    var r := Trim(s);
    TrimIsSlice(s);
    assert TrimStart(r) == r;
    assert TrimEnd(r) == r;
  }

  /** trim and isBlank disagree: a lone ideographic space U+3000 is blank
      but survives trim ... */
  lemma BlankSurvivesTrim()
    ensures var ideo := ['\U{3000}']; IsBlank(ideo) && Trim(ideo) == ideo
  {
    var ideo := ['\U{3000}'];
    assert TrimStart(ideo) == ideo;
    assert TrimEnd(ideo) == ideo;
  }

  /** ... and a lone U+0000 is trimmed away although it is not blank. */
  lemma TrimmedAwayButNotBlank()
    ensures var nul := ['\U{0}']; !IsBlank(nul) && Trim(nul) == ""
  {
    var nul := ['\U{0}'];
    assert !IsWhitespace(nul[0]);
    assert TrimStart(nul) == TrimStart(nul[1..]);
  }

  /** String.toLowerCase restricted to ASCII letters. */
  function LowerChar(c: char): (d: char)
    ensures !('A' <= d <= 'Z')
    ensures ('A' <= c <= 'Z') || d == c
    ensures 'A' <= c <= 'Z' ==> 'a' <= d <= 'z' && d as int - 'a' as int == c as int - 'A' as int
  {
    if 'A' <= c <= 'Z' then (c as int + 32) as char else c
  }

  function Lower(s: string): (r: string)
    ensures |r| == |s|
    ensures forall i :: 0 <= i < |s| ==> r[i] == LowerChar(s[i])
  {
    if s == [] then [] else [LowerChar(s[0])] + Lower(s[1..])
  }

  /** Lower-casing twice is lower-casing once. */
  lemma LowerIdempotent(s: string)
    ensures Lower(Lower(s)) == Lower(s)
  {
  }

  /** Lower-casing leaves every character at most U+0020 alone and maps
      no other character to one, so it commutes with trim. */
  lemma {:induction false} LowerTrimStart(s: string)
    ensures Lower(TrimStart(s)) == TrimStart(Lower(s))
  {
    if |s| > 0 && IsTrimmed(s[0]) {
      assert Lower(s)[1..] == Lower(s[1..]);
      LowerTrimStart(s[1..]);
    } else if |s| > 0 {
      assert !IsTrimmed(Lower(s)[0]);
    }
  }

  lemma {:induction false} LowerTrimEnd(s: string)
    ensures Lower(TrimEnd(s)) == TrimEnd(Lower(s))
  {
    if |s| > 0 && IsTrimmed(s[|s| - 1]) {
      assert Lower(s)[..|s| - 1] == Lower(s[..|s| - 1]);
      LowerTrimEnd(s[..|s| - 1]);
    } else if |s| > 0 {
      assert !IsTrimmed(Lower(s)[|s| - 1]);
    }
  }

  lemma LowerTrim(s: string)
    ensures Lower(Trim(s)) == Trim(Lower(s))
  {
    LowerTrimStart(s);
    LowerTrimEnd(TrimStart(s));
  }

  /** String.contains: q occurs in s as a contiguous block. */
  predicate Contains(s: string, q: string)
  {
    |q| <= |s| && (q == s[..|q|] || (|s| > 0 && Contains(s[1..], q)))
  }

  /** q is the block of s that starts at index i. */
  predicate OccursAt(s: string, q: string, i: int) {
    0 <= i && i + |q| <= |s| && s[i..i + |q|] == q
  }

  /** Contains agrees with "q is the block of s at some index". */
  lemma {:induction false} ContainsAt(s: string, q: string)
    ensures Contains(s, q) <==> exists i :: OccursAt(s, q, i)
  {
    if |q| <= |s| && q != s[..|q|] && |s| > 0 {
      ContainsAt(s[1..], q);
      if exists i :: OccursAt(s, q, i) {
        var i :| OccursAt(s, q, i);
        assert i > 0;
        assert OccursAt(s[1..], q, i - 1);
      }
      if Contains(s[1..], q) {
        var i :| OccursAt(s[1..], q, i);
        assert OccursAt(s, q, i + 1);
      }
    } else if |q| <= |s| && q == s[..|q|] {
      assert OccursAt(s, q, 0);
    }
  }

  /** The empty query occurs in every string. */
  lemma ContainsEmpty(s: string)
    ensures Contains(s, "")
  {
  }

  /** Case-insensitive substring test as the vendor searches do it: the
      query is trimmed and lower-cased, the text is lower-cased. */
  predicate MatchesIgnoringCase(text: string, query: string) {
    Contains(Lower(text), Lower(Trim(query)))
  }

  /** Changing the case of ASCII letters in either the text or the query
      never changes the answer. */
  lemma MatchIsCaseInsensitive(text: string, text': string, query: string, query': string)
    requires Lower(text) == Lower(text') && Lower(query) == Lower(query')
    ensures MatchesIgnoringCase(text, query) == MatchesIgnoringCase(text', query')
  {
    LowerTrim(query);
    LowerTrim(query');
  }

  /** A blank (after trimming) query matches every text. */
  lemma EmptyQueryMatches(text: string, query: string)
    requires Trim(query) == ""
    ensures MatchesIgnoringCase(text, query)
  {
  }

  /** A vendor stored as "Acme Co" is found by the query "acme". */
  lemma AcmeMatches()
    ensures MatchesIgnoringCase("Acme Co", "acme")
  {
    AcmeTrimmed();
    AcmeLowered();
  }

  lemma AcmeTrimmed()
    ensures Trim("acme") == "acme"
  {
    assert TrimStart("acme") == "acme";
    assert TrimEnd("acme") == "acme";
  }

  lemma AcmeLowered()
    ensures Lower("acme") == "acme"
    ensures Lower("Acme Co")[..4] == "acme"
  {
  }
}
