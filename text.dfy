/**
 * The parts of std::string and <cctype> that the server's code leans on: find, rfind,
 * find_first_not_of, the "C"-locale case mappings and decimal conversion.
 */
module Text {
  import opened Wrappers

  const CRLF: string := "\r\n"

  /** `pat` occurs in `s` starting at index `i`. */
  predicate MatchAt(s: string, pat: string, i: int) {
    0 <= i && i + |pat| <= |s| && s[i..i + |pat|] == pat
  }

  /** A match in a suffix is a match in the whole string, shifted by the suffix's offset. */
  lemma MatchAtDrop(s: string, pat: string, d: nat, j: nat)
    requires d <= |s|
    ensures MatchAt(s[d..], pat, j) <==> MatchAt(s, pat, d + j)
  {
    if 0 <= j && j + |pat| <= |s| - d {
      assert s[d..][j..j + |pat|] == s[d + j..d + j + |pat|];
    }
  }

  /** `pat` is a substring of `s`. */
  ghost predicate Occurs(pat: string, s: string) {
    exists i :: MatchAt(s, pat, i)
  }

  /** std::string::find(pat, from): the first occurrence of `pat` at or after `from`. */
  function Find(s: string, pat: string, from: nat): (r: Option<nat>)
    decreases |s| - from
    ensures r.Some? ==> from <= r.value && MatchAt(s, pat, r.value)
    ensures r.Some? ==> forall j :: from <= j < r.value ==> !MatchAt(s, pat, j)
    ensures r.None? ==> forall j :: from <= j ==> !MatchAt(s, pat, j)
  {
    if from + |pat| > |s| then None
    else if s[from..from + |pat|] == pat then Some(from)
    else Find(s, pat, from + 1)
  }

  lemma FindNoneIffAbsent(s: string, pat: string)
    ensures Find(s, pat, 0).None? <==> !Occurs(pat, s)
  {
    var r := Find(s, pat, 0);
    if r.Some? {
      assert MatchAt(s, pat, r.value);
    }
  }

  /** A match with no earlier one at or after `from` is what Find returns. */
  lemma FindAt(s: string, pat: string, from: nat, p: nat)
    requires from <= p && MatchAt(s, pat, p)
    requires forall j :: from <= j < p ==> !MatchAt(s, pat, j)
    ensures Find(s, pat, from) == Some(p)
    decreases p - from
  {
    if from < p {
      assert !MatchAt(s, pat, from);
      FindAt(s, pat, from + 1, p);
    }
  }

  /** The middle part of a concatenation occurs in it, at the length of the first part. */
  lemma MatchInConcat(a: string, b: string, c: string)
    ensures MatchAt(a + b + c, b, |a|) && Occurs(b, a + b + c)
  {
    var w := a + b + c;
    assert w[|a|..|a| + |b|] == b;
    assert MatchAt(w, b, |a|);
  }

  /** A match inside the middle part of a concatenation is a match in the whole. */
  lemma MatchExtend(a: string, b: string, c: string, pat: string, i: int)
    requires MatchAt(b, pat, i)
    ensures MatchAt(a + b + c, pat, |a| + i)
  {
    assert (a + b + c)[|a| + i..|a| + i + |pat|] == b[i..i + |pat|];
  }

  /** std::string::rfind(c, upto): the last index `i <= upto` holding `c`. */
  function RFindChar(s: string, c: char, upto: int): (r: Option<nat>)
    decreases upto + 1
    ensures r.Some? ==> r.value <= upto && r.value < |s| && s[r.value] == c
    ensures r.Some? ==> forall j :: r.value < j <= upto && j < |s| ==> s[j] != c
    ensures r.None? ==> forall j :: 0 <= j <= upto && j < |s| ==> s[j] != c
  {
    if upto < 0 then None
    else if upto >= |s| then RFindChar(s, c, |s| - 1)
    else if s[upto] == c then Some(upto)
    else RFindChar(s, c, upto - 1)
  }

  /** std::string::find_first_not_of(c, from). */
  function FindNotChar(s: string, c: char, from: nat): (r: Option<nat>)
    decreases |s| - from
    ensures r.Some? ==> from <= r.value < |s| && s[r.value] != c
    ensures r.Some? ==> forall j :: from <= j < r.value ==> s[j] == c
    ensures r.None? ==> forall j :: from <= j < |s| ==> s[j] == c
  {
    if from >= |s| then None
    else if s[from] != c then Some(from)
    else FindNotChar(s, c, from + 1)
  }

  // ---------------------------------------------------------------- characters

  predicate IsDigit(c: char) {
    '0' <= c <= '9'
  }

  predicate AllDigits(s: string) {
    forall i :: 0 <= i < |s| ==> IsDigit(s[i])
  }

  /** isspace in the "C" locale. */
  predicate IsSpace(c: char) {
    c == ' ' || c == '\t' || c == '\n' || c == '\r' || c == 11 as char || c == 12 as char
  }

  /** tolower in the "C" locale. */
  function LowerChar(c: char): char {
    if 'A' <= c <= 'Z' then (c as int + 32) as char else c
  }

  /** toupper in the "C" locale. */
  function UpperChar(c: char): char {
    if 'a' <= c <= 'z' then (c as int - 32) as char else c
  }

  function LowerStr(s: string): string {
    seq(|s|, i requires 0 <= i < |s| => LowerChar(s[i]))
  }

  // ---------------------------------------------------------------- decimal numbers

  function DigitChar(d: nat): char
    requires d < 10
  {
    ('0' as int + d) as char
  }

  function DigitValue(c: char): nat
    requires IsDigit(c)
  {
    c as int - '0' as int
  }

  /** The value of a run of decimal digits, most significant first. */
  function DigitsValue(s: string): nat
    requires AllDigits(s)
  {
    if s == [] then 0 else DigitsValue(s[..|s| - 1]) * 10 + DigitValue(s[|s| - 1])
  }

  /** Decimal rendering of a natural number, as `operator<<` and to_string(size_t) print it. */
  function NatToString(n: nat): string
    decreases n
  {
    if n < 10 then [DigitChar(n)] else NatToString(n / 10) + [DigitChar(n % 10)]
  }

  /** Decimal rendering of a signed number, as `operator<<` prints an int. */
  function IntToString(i: int): string {
    if i < 0 then "-" + NatToString(-i) else NatToString(i)
  }

  lemma {:induction false} NatToStringDigits(n: nat)
    ensures |NatToString(n)| > 0 && AllDigits(NatToString(n))
    ensures DigitsValue(NatToString(n)) == n
    decreases n
  {
    if n >= 10 {
      NatToStringDigits(n / 10);
      var s := NatToString(n);
      assert s[..|s| - 1] == NatToString(n / 10);
    }
  }

  /** Distinct numbers print differently. */
  lemma NatToStringInjective(m: nat, n: nat)
    requires NatToString(m) == NatToString(n)
    ensures m == n
  {
    NatToStringDigits(m);
    NatToStringDigits(n);
  }

  /** A printed number never contains a line break, a space or a colon. */
  lemma NatToStringPlain(n: nat)
    ensures forall i :: 0 <= i < |NatToString(n)| ==> IsDigit(NatToString(n)[i])
  {
    NatToStringDigits(n);
  }
}
