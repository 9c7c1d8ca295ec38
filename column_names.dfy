/** The string operations the preprocessing applies to column names:
    str.lower, str.strip and the substring test `in`. */
module ColumnNames {

  /** The characters Python's str.isspace accepts, which str.strip() removes from both ends. */
  predicate IsSpace(c: char)
  {
    || ('\t' <= c <= '\r')
    || ('\U{1C}' <= c <= ' ')
    || c == '\U{85}' || c == '\U{A0}' || c == '\U{1680}'
    || ('\U{2000}' <= c <= '\U{200A}')
    || c == '\U{2028}' || c == '\U{2029}' || c == '\U{202F}' || c == '\U{205F}' || c == '\U{3000}'
  }

  predicate IsUpper(c: char)
  {
    'A' <= c <= 'Z'
  }

  /** Lower-casing of one character (ASCII letters only). */
  function LowerChar(c: char): (d: char)
    ensures IsUpper(c) ==> 'a' <= d <= 'z' && d as int - 'a' as int == c as int - 'A' as int
    ensures !IsUpper(d)
    ensures !IsUpper(c) ==> d == c
    ensures IsSpace(d) <==> IsSpace(c)
  {
    if IsUpper(c) then (c as int + 32) as char else c
  }

  function Lower(s: string): (r: string)
    ensures |r| == |s|
    ensures forall i :: 0 <= i < |s| && IsUpper(s[i]) ==> 'a' <= r[i] <= 'z' && r[i] as int - 'a' as int == s[i] as int - 'A' as int
    ensures forall i :: 0 <= i < |s| && !IsUpper(s[i]) ==> r[i] == s[i]
    ensures forall i :: 0 <= i < |r| ==> !IsUpper(r[i])
    ensures (forall i :: 0 <= i < |s| ==> !IsUpper(s[i])) ==> r == s
  {
    seq(|s|, i requires 0 <= i < |s| => LowerChar(s[i]))
  }

  /** Drops the leading whitespace. */
  function TrimStart(s: string): (r: string)
    ensures |r| <= |s| && r == s[|s| - |r|..]
    ensures forall k :: 0 <= k < |s| - |r| ==> IsSpace(s[k])
    ensures r != [] ==> !IsSpace(r[0])
  {
    if s != [] && IsSpace(s[0]) then TrimStart(s[1..]) else s
  }

  /** Drops the trailing whitespace. */
  function TrimEnd(s: string): (r: string)
    ensures |r| <= |s| && r == s[..|r|]
    ensures forall k :: |r| <= k < |s| ==> IsSpace(s[k])
    ensures r != [] ==> !IsSpace(r[|r| - 1])
  {
    if s != [] && IsSpace(s[|s| - 1]) then TrimEnd(s[..|s| - 1]) else s
  }

  /** r is what is left of s once a whitespace-only prefix and suffix are taken off,
      and r neither starts nor ends with whitespace. */
  ghost predicate IsStripOf(r: string, s: string)
  {
    exists i, j :: IsStripCut(r, s, i, j)
  }

  ghost predicate IsStripCut(r: string, s: string, i: int, j: int)
  {
    && 0 <= i <= j <= |s| && r == s[i..j]
    && (forall k :: 0 <= k < i ==> IsSpace(s[k]))
    && (forall k :: j <= k < |s| ==> IsSpace(s[k]))
    && (r != [] ==> !IsSpace(r[0]) && !IsSpace(r[|r| - 1]))
  }

  /** str.strip() */
  function Strip(s: string): (r: string)
    ensures IsStripOf(r, s)
  {
    var t := TrimStart(s);
    var r := TrimEnd(t);
    var i := |s| - |t|;
    assert IsStripCut(r, s, i, i + |r|) by {
      assert r == s[i..][..|r|];
      forall k | i + |r| <= k < |s|
        ensures IsSpace(s[k])
      {
        assert s[k] == t[k - i];
      }
    }
    r
  }

  /** The stripped string is determined by its input: IsStripOf admits one result only. */
  lemma StripUnique(s: string, r1: string, r2: string)
    requires IsStripOf(r1, s) && IsStripOf(r2, s)
    ensures r1 == r2
  {
    var i1, j1 :| IsStripCut(r1, s, i1, j1);
    var i2, j2 :| IsStripCut(r2, s, i2, j2);
    if r1 != [] && r2 != [] {
      assert !IsSpace(s[i1]) && !IsSpace(s[i2]);
      assert i1 == i2;
      assert !IsSpace(s[j1 - 1]) && !IsSpace(s[j2 - 1]);
      assert j1 == j2;
    }
  }

  /** c and d are the same letter up to ASCII case, or the same character. */
  predicate SameIgnoringCase(c: char, d: char)
  {
    || c == d
    || ('A' <= c <= 'Z' && 'a' <= d <= 'z' && d as int - c as int == 32)
    || ('a' <= c <= 'z' && 'A' <= d <= 'Z' && c as int - d as int == 32)
  }

  /** s and t agree character by character up to ASCII case. */
  predicate EqualIgnoringCase(s: string, t: string)
  {
    |s| == |t| && forall i :: 0 <= i < |s| ==> SameIgnoringCase(s[i], t[i])
  }

  /** Lowering identifies exactly the strings that agree up to case. */
  lemma LowerIgnoresCase(s: string, t: string)
    ensures Lower(s) == Lower(t) <==> EqualIgnoringCase(s, t)
  {
    if EqualIgnoringCase(s, t) {
      forall i | 0 <= i < |s|
        ensures Lower(s)[i] == Lower(t)[i]
      {
        assert SameIgnoringCase(s[i], t[i]);
      }
    }
    if Lower(s) == Lower(t) {
      forall i | 0 <= i < |s|
        ensures SameIgnoringCase(s[i], t[i])
      {
        assert Lower(s)[i] == Lower(t)[i];
      }
    }
  }

  /** The name normalisation of the column headers: lower-case, then strip. */
  function NormaliseName(s: string): (r: string)
    ensures IsStripOf(r, Lower(s))
  {
    Strip(Lower(s))
  }

  /** Header matching is case-insensitive: names that agree up to case normalise alike. */
  lemma NormaliseIgnoresCase(s: string, t: string)
    requires EqualIgnoringCase(s, t)
    ensures NormaliseName(s) == NormaliseName(t)
  {
    LowerIgnoresCase(s, t);
  }

  /** Stripping keeps a contiguous run of the characters of its input. */
  lemma StripKeepsRun(r: string, s: string) returns (i: nat)
    requires IsStripOf(r, s)
    ensures i + |r| <= |s| && forall k :: 0 <= k < |r| ==> r[k] == s[i + k]
  {
    var i', j :| IsStripCut(r, s, i', j);
    i := i';
  }

  /** A normalised name is the stripped lower-cased name, so it has no upper-case letter. */
  lemma NormalisedIsLower(s: string)
    ensures IsStripOf(NormaliseName(s), Lower(s))
    ensures forall k :: 0 <= k < |NormaliseName(s)| ==> !IsUpper(NormaliseName(s)[k])
  {
    var i := StripKeepsRun(NormaliseName(s), Lower(s));
  }

  /** Normalising a normalised name changes nothing. */
  lemma NormaliseIdempotent(s: string)
    ensures NormaliseName(NormaliseName(s)) == NormaliseName(s)
  {
    var t := NormaliseName(s);
    NormalisedIsLower(s);
    assert Lower(t) == t;
    var i, j :| IsStripCut(t, Lower(s), i, j);
    assert IsStripCut(t, t, 0, |t|);
    StripUnique(t, Strip(t), t);
  }

  /** The header normalisation, applied to every column name in place. */
  function NormaliseColumns(cols: seq<string>): (r: seq<string>)
    ensures |r| == |cols|
    ensures forall i :: 0 <= i < |r| ==> r[i] == NormaliseName(cols[i])
  {
    seq(|cols|, i requires 0 <= i < |cols| => NormaliseName(cols[i]))
  }

  /** Normalising the header twice gives the header normalised once. */
  lemma NormaliseColumnsIdempotent(cols: seq<string>)
    ensures NormaliseColumns(NormaliseColumns(cols)) == NormaliseColumns(cols)
  {
    var once := NormaliseColumns(cols);
    forall i | 0 <= i < |cols|
      ensures NormaliseName(once[i]) == once[i]
    {
      NormaliseIdempotent(cols[i]);
    }
  }

  /** Any cut meeting the description is the strip. */
  lemma StripOfCut(r: string, s: string, i: int, j: int)
    requires IsStripCut(r, s, i, j)
    ensures Strip(s) == r
  {
    StripUnique(s, Strip(s), r);
  }

  /** A station header as a CSV file may spell it. */
  lemma NormaliseAqiExample()
    ensures NormaliseName(" AQI ") == "aqi"
  {
    var a := Lower(" AQI ");
    assert a == " aqi " by {
      assert a[0] == ' ' && a[1] == 'a' && a[2] == 'q' && a[3] == 'i' && a[4] == ' ';
    }
    assert a[1..4] == "aqi";
    StripOfCut("aqi", a, 1, 4);
  }

  /** A weather header as a CSV file may spell it. */
  lemma NormaliseTempExample()
    ensures NormaliseName(" Temp ") == "temp"
  {
    var t := Lower(" Temp ");
    assert t == " temp " by {
      assert t[0] == ' ' && t[1] == 't' && t[2] == 'e' && t[3] == 'm' && t[4] == 'p' && t[5] == ' ';
    }
    assert t[1..5] == "temp";
    StripOfCut("temp", t, 1, 5);
  }

  /** pat occurs in s at position i. */
  predicate OccursAt(s: string, pat: string, i: nat)
  {
    i + |pat| <= |s| && s[i..i + |pat|] == pat
  }

  /** Python's `pat in s` for strings: pat is a substring of s. */
  function Contains(s: string, pat: string): (b: bool)
    ensures pat == [] ==> b
    ensures b ==> |pat| <= |s|
    ensures s == pat ==> b
  {
    assert OccursAt(s, pat, 0) <== s == pat || pat == [];
    exists i: nat | i <= |s| :: OccursAt(s, pat, i)
  }

  /** An occurrence inside a cut is an occurrence in the whole string. */
  lemma OccurrenceOfCut(r: string, t: string, i: int, j: int, pat: string, p: nat)
    requires IsStripCut(r, t, i, j) && OccursAt(r, pat, p)
    ensures OccursAt(t, pat, i + p)
  {
    forall k | 0 <= k < |pat|
      ensures t[i + p + k] == pat[k]
    {
      assert r[p + k] == pat[k] && r[p + k] == t[i + p + k];
    }
    assert t[i + p..i + p + |pat|] == pat;
  }

  /** An occurrence of a whitespace-free pattern lies inside the cut. */
  lemma OccurrenceInCut(r: string, t: string, i: int, j: int, pat: string, p: nat)
    requires IsStripCut(r, t, i, j) && OccursAt(t, pat, p)
    requires pat != [] && forall k :: 0 <= k < |pat| ==> !IsSpace(pat[k])
    ensures i <= p && OccursAt(r, pat, p - i)
  {
    assert t[p] == pat[0] && t[p + |pat| - 1] == pat[|pat| - 1];
    assert i <= p && p + |pat| <= j;
    forall k | 0 <= k < |pat|
      ensures r[p - i + k] == pat[k]
    {
      assert t[p + k] == pat[k] && r[p - i + k] == t[p + k];
    }
    assert r[p - i..p - i + |pat|] == pat;
  }

  /** A pattern without whitespace occurs in the stripped string iff it occurs in the string:
      the whitespace the strip removes cannot be part of an occurrence. */
  lemma StripKeepsOccurrences(t: string, pat: string)
    requires pat != [] && forall k :: 0 <= k < |pat| ==> !IsSpace(pat[k])
    ensures Contains(Strip(t), pat) <==> Contains(t, pat)
  {
    var r := Strip(t);
    var i, j :| IsStripCut(r, t, i, j);
    if Contains(r, pat) {
      var p: nat :| p <= |r| && OccursAt(r, pat, p);
      OccurrenceOfCut(r, t, i, j, pat, p);
    }
    if Contains(t, pat) {
      var p: nat :| p <= |t| && OccursAt(t, pat, p);
      OccurrenceInCut(r, t, i, j, pat, p);
    }
  }

  /** The AQI test on a normalised header name ignores case and surrounding whitespace:
      the name qualifies iff its lower-cased form contains "aqi". */
  lemma NormalisedContainsAqi(s: string)
    ensures Contains(NormaliseName(s), "aqi") <==> Contains(Lower(s), "aqi")
  {
    StripKeepsOccurrences(Lower(s), "aqi");
  }
}
