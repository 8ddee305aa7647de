/**
 * Text helpers the trait mapper relies on: Python's `str.strip()` (used to decide
 * whether a trait name is blank) and decimal rendering of natural numbers (used
 * by the scale labels).
 */
module Text {

  /** The characters Python's `str.isspace()` accepts, which `str.strip()` removes. */
  predicate IsSpace(c: char) {
    || c == ' ' || c == '\t' || c == '\n' || c == '\r' || c == '\U{B}' || c == '\U{C}'
    || ('\U{1C}' <= c <= '\U{1F}')
    || c == '\U{85}' || c == '\U{A0}' || c == '\U{1680}'
    || ('\U{2000}' <= c <= '\U{200A}')
    || c == '\U{2028}' || c == '\U{2029}' || c == '\U{202F}' || c == '\U{205F}' || c == '\U{3000}'
  }

  /** Every character of `s` is whitespace (vacuously true of ""). */
  predicate AllSpace(s: string) {
    forall i :: 0 <= i < |s| ==> IsSpace(s[i])
  }

  /** `s` with its leading whitespace removed: a suffix of `s` that does not start with whitespace. */
  function StripLeft(s: string): (r: string)
    ensures |r| <= |s| && r == s[|s| - |r|..]
    ensures AllSpace(s[..|s| - |r|])
    ensures |r| == 0 || !IsSpace(r[0])
    ensures |r| == 0 <==> AllSpace(s)
  {
    if |s| > 0 && IsSpace(s[0]) then
      var t := StripLeft(s[1..]);
      AllSpaceFront(s);
      AllSpaceFront(s[..|s| - |t|]);
      assert s[..|s| - |t|][1..] == s[1..][..|s[1..]| - |t|];
      t
    else
      if |s| > 0 then AllSpaceFront(s); s else s
  }

  /** `s` with its trailing whitespace removed: a prefix of `s` that does not end with whitespace. */
  function StripRight(s: string): (r: string)
    ensures |r| <= |s| && r == s[..|r|]
    ensures AllSpace(s[|r|..])
    ensures |r| == 0 || !IsSpace(r[|r| - 1])
    ensures |r| == 0 <==> AllSpace(s)
  {
    if |s| > 0 && IsSpace(s[|s| - 1]) then
      var t := StripRight(s[..|s| - 1]);
      AllSpaceBack(s);
      AllSpaceBack(s[|t|..]);
      assert s[|t|..][..|s[|t|..]| - 1] == s[..|s| - 1][|t|..];
      t
    else
      if |s| > 0 then AllSpaceBack(s); s else s
  }

  /** A non-empty string is all whitespace exactly when its first character is and the rest is. */
  lemma AllSpaceFront(s: string)
    requires |s| > 0
    ensures AllSpace(s) <==> IsSpace(s[0]) && AllSpace(s[1..])
  {
    if IsSpace(s[0]) && AllSpace(s[1..]) {
      assert forall i :: 1 <= i < |s| ==> s[i] == s[1..][i - 1];
    }
  }

  /** A non-empty string is all whitespace exactly when its last character is and the rest is. */
  lemma AllSpaceBack(s: string)
    requires |s| > 0
    ensures AllSpace(s) <==> IsSpace(s[|s| - 1]) && AllSpace(s[..|s| - 1])
  {
  }

  /** Python's `s.strip()` with no argument. */
  function Strip(s: string): (r: string)
    ensures |r| <= |s|
    ensures |r| == 0 <==> AllSpace(s)
  {
    var l := StripLeft(s);
    if |l| > 0 then
      assert !IsSpace(l[0]);
      StripRight(l)
    else StripRight(l)
  }

  /** A name is blank when it holds nothing but whitespace (Python: `name.strip() == ""`,
      see `BlankIffStripEmpty`). */
  predicate IsBlank(s: string) {
    |s| == 0 || (IsSpace(s[0]) && IsBlank(s[1..]))
  }

  /** Strip only removes whitespace: the result is a slice of `s`, and everything cut off on
      either side is whitespace. */
  lemma StripIsTrimmedSlice(s: string)
    ensures exists i, j :: 0 <= i <= j <= |s| && Strip(s) == s[i..j] && AllSpace(s[..i]) && AllSpace(s[j..])
  {
    TrimmedTwice(s, StripLeft(s), Strip(s));
  }

  /** Cutting whitespace off the front of `s` and then off the back of what is left leaves a
      slice of `s` with whitespace on either side of it. */
  lemma TrimmedTwice(s: string, l: string, r: string)
    requires |l| <= |s| && l == s[|s| - |l|..] && AllSpace(s[..|s| - |l|])
    requires |r| <= |l| && r == l[..|r|] && AllSpace(l[|r|..])
    ensures exists i, j :: 0 <= i <= j <= |s| && r == s[i..j] && AllSpace(s[..i]) && AllSpace(s[j..])
  {
    var i := |s| - |l|;
    var j := i + |r|;
    assert s[j..] == l[|r|..];
    assert 0 <= i <= j <= |s| && r == s[i..j] && AllSpace(s[..i]) && AllSpace(s[j..]);
  }

  /** A stripped string neither starts nor ends with whitespace. */
  lemma StripHasNoSpaceAtEdges(s: string)
    ensures |Strip(s)| == 0 || (!IsSpace(Strip(s)[0]) && !IsSpace(Strip(s)[|Strip(s)| - 1]))
  {
    EdgesKept(StripLeft(s), Strip(s));
  }

  /** A non-empty prefix starts where the whole string does. */
  lemma EdgesKept(l: string, r: string)
    requires |r| <= |l| && r == l[..|r|]
    requires |l| == 0 || !IsSpace(l[0])
    requires |r| == 0 || !IsSpace(r[|r| - 1])
    ensures |r| == 0 || (!IsSpace(r[0]) && !IsSpace(r[|r| - 1]))
  {
    if |r| > 0 {
      assert r[0] == l[0];
    }
  }

  /** A name is blank exactly when stripping it leaves the empty string. */
  lemma {:induction false} BlankIffStripEmpty(s: string)
    ensures IsBlank(s) <==> Strip(s) == ""
  {
    BlankIffAllSpace(s);
  }

  lemma {:induction false} BlankIffAllSpace(s: string)
    ensures IsBlank(s) <==> AllSpace(s)
  {
    if |s| > 0 {
      BlankIffAllSpace(s[1..]);
      assert forall i :: 1 <= i < |s| ==> s[i] == s[1..][i - 1];
    }
  }

  predicate IsDigit(c: char) {
    '0' <= c <= '9'
  }

  predicate AllDigits(s: string) {
    forall i :: 0 <= i < |s| ==> IsDigit(s[i])
  }

  function DigitChar(d: nat): (c: char)
    requires d < 10
    ensures IsDigit(c)
  {
    ('0' as int + d) as char
  }

  function DigitValue(c: char): (d: nat)
    requires IsDigit(c)
    ensures d < 10 && DigitChar(d) == c
  {
    c as int - '0' as int
  }

  /** Decimal rendering of `n` without leading zeros, as Python's `str(n)` for a non-negative int. */
  function NatToString(n: nat): (r: string)
    ensures |r| >= 1 && AllDigits(r)
    ensures |r| > 1 ==> r[0] != '0'
  {
    if n < 10 then [DigitChar(n)] else NatToString(n / 10) + [DigitChar(n % 10)]
  }

  /** The natural number a string of decimal digits denotes. */
  function ParseNat(s: string): nat
    requires AllDigits(s)
  {
    if |s| == 0 then 0 else ParseNat(s[..|s| - 1]) * 10 + DigitValue(s[|s| - 1])
  }

  /** Parsing the decimal rendering of `n` gives back `n`. */
  lemma {:induction false} ParseNatToString(n: nat)
    ensures ParseNat(NatToString(n)) == n
  {
    var r := NatToString(n);
    if n >= 10 {
      ParseNatToString(n / 10);
      assert r[..|r| - 1] == NatToString(n / 10);
    } else {
      assert r[..|r| - 1] == [];
    }
  }
}
