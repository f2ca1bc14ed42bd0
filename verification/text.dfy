/** String helpers with the meaning JavaScript gives them in the timetable parser:
    `String.prototype.trim`, `String.prototype.includes`, the regular expressions
    `/^\d+$/` and `/Skupina\s+(\d+)/i`, `parseInt(…, 10)` on a digit run, and the
    decimal rendering of an integer inside a template literal.

    Strings are sequences of Unicode scalar values; JavaScript strings are UTF-16
    code units. The results agree all the same: every pattern searched for is
    Basic Multilingual Plane text, and substring search, trimming, the digit and
    white-space tests and equality give the same answers on code units as on
    scalar values, since a surrogate unit is neither white space nor a digit and
    never equals a character of a pattern. */
module Text {

  import opened Wrappers

  /** JavaScript's WhiteSpace and LineTerminator characters: what `trim` strips
      and what `\s` matches in a regular expression. */
  predicate IsSpace(c: char) {
    || c == '\t' || c == '\n' || c == '\U{000B}' || c == '\U{000C}' || c == '\r'
    || c == ' ' || c == '\U{00A0}' || c == '\U{1680}'
    || ('\U{2000}' <= c <= '\U{200A}')
    || c == '\U{2028}' || c == '\U{2029}' || c == '\U{202F}' || c == '\U{205F}'
    || c == '\U{3000}' || c == '\U{FEFF}'
  }

  predicate AllSpace(s: string) {
    forall i :: 0 <= i < |s| ==> IsSpace(s[i])
  }

  /** The first index at or after `i` that does not hold white space. */
  function SkipSpaces(s: string, i: nat): (j: nat)
    requires i <= |s|
    ensures i <= j <= |s|
    ensures forall k :: i <= k < j ==> IsSpace(s[k])
    ensures j == |s| || !IsSpace(s[j])
    decreases |s| - i
  {
    if i < |s| && IsSpace(s[i]) then SkipSpaces(s, i + 1) else i
  }

  /** Walking back from `j` but not below `lo`: the end of the last character
      that is not white space. */
  function BackSpaces(s: string, lo: nat, j: nat): (k: nat)
    requires lo <= j <= |s|
    ensures lo <= k <= j
    ensures forall m :: k <= m < j ==> IsSpace(s[m])
    ensures k == lo || !IsSpace(s[k - 1])
    decreases j - lo
  {
    if lo < j && IsSpace(s[j - 1]) then BackSpaces(s, lo, j - 1) else j
  }

  /** `String.prototype.trim`: the result is a slice of `s` that is preceded and
      followed only by white space, and that neither starts nor ends with white
      space. */
  function Trim(s: string): (r: string)
    ensures exists a ::
              && 0 <= a <= |s| - |r| && r == s[a..a + |r|]
              && AllSpace(s[..a]) && AllSpace(s[a + |r|..])
    ensures r == [] || (!IsSpace(r[0]) && !IsSpace(r[|r| - 1]))
  {
    var a := SkipSpaces(s, 0);
    var b := BackSpaces(s, a, |s|);
    var r := s[a..b];
    assert r == s[a..a + |r|];
    assert AllSpace(s[..a]);
    assert AllSpace(s[a + |r|..]);
    r
  }

  /** `s.includes(sub)`: `sub` occurs in `s` at some position. */
  predicate Contains(s: string, sub: string)
    decreases |s|
  {
    sub <= s || (|s| > 0 && Contains(s[1..], sub))
  }

  predicate IsDigit(c: char) {
    '0' <= c <= '9'
  }

  /** `/^\d+$/.test(s)`: a non-empty run of ASCII digits. */
  predicate AllDigits(s: string) {
    |s| > 0 && forall i :: 0 <= i < |s| ==> IsDigit(s[i])
  }

  function DigitValue(c: char): nat
    requires IsDigit(c)
  {
    c as int - '0' as int
  }

  function DigitChar(d: nat): (c: char)
    requires d < 10
    ensures IsDigit(c) && DigitValue(c) == d
  {
    ('0' as int + d) as char
  }

  /** `parseInt(s, 10)` for a string of decimal digits. */
  function ParseDecimal(s: string): nat
    requires forall i :: 0 <= i < |s| ==> IsDigit(s[i])
  {
    if s == [] then 0
    else 10 * ParseDecimal(s[..|s| - 1]) + DigitValue(s[|s| - 1])
  }

  /** The decimal rendering of a natural number, as in `${n}`. */
  function NatToString(n: nat): string
  {
    if n < 10 then [DigitChar(n)]
    else NatToString(n / 10) + [DigitChar(n % 10)]
  }

  /** The decimal rendering of an integer, with a leading '-' when negative. */
  function IntToString(i: int): string
  {
    if i < 0 then "-" + NatToString(-i) else NatToString(i)
  }

  /** Rendering a number and reading it back gives the number again, and the
      rendering is a digit run. */
  lemma {:induction false} NatToStringRoundTrip(n: nat)
    ensures AllDigits(NatToString(n))
    ensures ParseDecimal(NatToString(n)) == n
  {
    if n >= 10 {
      NatToStringRoundTrip(n / 10);
      var s := NatToString(n);
      assert s[..|s| - 1] == NatToString(n / 10);
    }
  }

  /** ASCII-only case folding: JavaScript's non-Unicode `/i` flag never maps a
      non-ASCII character onto an ASCII one, so for the ASCII word "Skupina"
      case-insensitive matching is exactly ASCII case folding. */
  function FoldCase(c: char): char {
    if 'A' <= c <= 'Z' then (c as int + 32) as char else c
  }

  predicate MatchesIgnoringCaseAt(t: string, p: nat, word: string) {
    && p + |word| <= |t|
    && forall k :: 0 <= k < |word| ==> FoldCase(t[p + k]) == FoldCase(word[k])
  }

  /** Length of the run of white space starting at `q`. */
  function SpaceRun(t: string, q: nat): (n: nat)
    requires q <= |t|
    ensures q + n <= |t|
    ensures forall k :: q <= k < q + n ==> IsSpace(t[k])
    ensures q + n == |t| || !IsSpace(t[q + n])
    decreases |t| - q
  {
    if q < |t| && IsSpace(t[q]) then 1 + SpaceRun(t, q + 1) else 0
  }

  /** Length of the run of ASCII digits starting at `q`. */
  function DigitRun(t: string, q: nat): (n: nat)
    requires q <= |t|
    ensures q + n <= |t|
    ensures forall k :: q <= k < q + n ==> IsDigit(t[k])
    ensures q + n == |t| || !IsDigit(t[q + n])
    decreases |t| - q
  {
    if q < |t| && IsDigit(t[q]) then 1 + DigitRun(t, q + 1) else 0
  }

  const GroupWord := "skupina"

  /** The match of `/Skupina\s+(\d+)/i` anchored at position `p`, with its
      captured digits read by `parseInt`. Greedy `\s+` followed by `\d+` can only
      match by taking the whole white-space run and then the whole digit run. */
  function GroupNumberAt(t: string, p: nat): Option<nat>
    requires p <= |t|
  {
    if !MatchesIgnoringCaseAt(t, p, GroupWord) then None
    else
      var q := p + |GroupWord|;
      var w := SpaceRun(t, q);
      var d := DigitRun(t, q + w);
      if w == 0 || d == 0 then None
      else Some(ParseDecimal(t[q + w..q + w + d]))
  }

  /** The leftmost match of the pattern at or after position `p`. */
  function GroupNumberFrom(t: string, p: nat): (r: Option<nat>)
    requires p <= |t|
    ensures r.None? <==> forall q :: p <= q <= |t| ==> GroupNumberAt(t, q).None?
    ensures r.Some? ==> exists q :: p <= q <= |t| && GroupNumberAt(t, q) == r
                          && forall q' :: p <= q' < q ==> GroupNumberAt(t, q').None?
    decreases |t| - p
  {
    match GroupNumberAt(t, p)
    case Some(n) => Some(n)
    case None => if p < |t| then GroupNumberFrom(t, p + 1) else None
  }

  /** `text.match(/Skupina\s+(\d+)/i)` followed by `parseInt(match[1], 10)`:
      the leftmost match wins. */
  function GroupNumber(t: string): (r: Option<nat>)
    ensures r.None? <==> forall q :: 0 <= q <= |t| ==> GroupNumberAt(t, q).None?
    ensures r.Some? ==> exists q :: 0 <= q <= |t| && GroupNumberAt(t, q) == r
                          && forall q' :: 0 <= q' < q ==> GroupNumberAt(t, q').None?
  {
    GroupNumberFrom(t, 0)
  }

  /** A label "Skupina <n>" reads back as group `n`. */
  lemma GroupLabelRoundTrip(n: nat)
    ensures GroupNumber("Skupina " + NatToString(n)) == Some(n)
  {
    var digits := NatToString(n);
    var t := "Skupina " + digits;
    NatToStringRoundTrip(n);
    assert MatchesIgnoringCaseAt(t, 0, GroupWord);
    assert t[7] == ' ';
    assert SpaceRun(t, 8) == 0 by { assert IsDigit(t[8]); }
    assert SpaceRun(t, 7) == 1;
    assert t[8..] == digits;
    DigitRunToEnd(t, 8);
    assert t[8..8 + |digits|] == digits;
  }

  lemma DigitRunToEnd(t: string, q: nat)
    requires q <= |t|
    requires forall k :: q <= k < |t| ==> IsDigit(t[k])
    ensures DigitRun(t, q) == |t| - q
    decreases |t| - q
  {
    if q < |t| {
      DigitRunToEnd(t, q + 1);
    }
  }
}
