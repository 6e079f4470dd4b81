/**
 * The string helpers of utils.cpp. Helpers that change their argument in place (strip,
 * capitalize, to_lower, to_upper, pop) or loop over a local accumulator (replace_all, split,
 * ft_atoi) are methods proved against a specification function; the expression-level helpers
 * (in_str, path_matches, ci_equal, getFileExtension, the method conversions) are functions.
 */
module Utils {
  import opened Wrappers
  import opened Text

  // ================================================================ pop

  /** pop: drop the last character, if any. */
  method Pop(s: string) returns (r: string)
    ensures |s| == 0 ==> r == s
    ensures |s| > 0 ==> r + [s[|s| - 1]] == s
  {
    r := s;
    if |r| > 0 {
      r := r[..|r| - 1];
    }
  }

  // ================================================================ to_lower / to_upper

  /** to_lower: lower-cases every character in place. */
  method ToLower(s: string) returns (r: string)
    ensures |r| == |s| && forall i :: 0 <= i < |s| ==> r[i] == LowerChar(s[i])
    ensures r == LowerStr(s)
  {
    r := s;
    var i := 0;
    while i < |r|
      invariant 0 <= i <= |r| == |s|
      invariant forall k :: 0 <= k < i ==> r[k] == LowerChar(s[k])
      invariant forall k :: i <= k < |r| ==> r[k] == s[k]
    {
      r := r[i := LowerChar(r[i])];
      i := i + 1;
    }
  }

  /** to_upper: upper-cases every character in place. */
  method ToUpper(s: string) returns (r: string)
    ensures |r| == |s| && forall i :: 0 <= i < |s| ==> r[i] == UpperChar(s[i])
  {
    r := s;
    var i := 0;
    while i < |r|
      invariant 0 <= i <= |r| == |s|
      invariant forall k :: 0 <= k < i ==> r[k] == UpperChar(s[k])
      invariant forall k :: i <= k < |r| ==> r[k] == s[k]
    {
      r := r[i := UpperChar(r[i])];
      i := i + 1;
    }
  }

  /** Lower-casing is idempotent, so it loses nothing a second pass could recover. */
  lemma LowerStrIdempotent(s: string)
    ensures LowerStr(LowerStr(s)) == LowerStr(s)
  {
  }

  // ================================================================ capitalize

  /**
   * What capitalize leaves: everything lower-cased, then the first character and every character
   * that follows a '-' upper-cased. The search for '-' starts at index 1, so a '-' in the first
   * position does not raise the character after it.
   */
  function Capitalized(s: string): string {
    seq(|s|, k requires 0 <= k < |s| =>
      if k == 0 || (k >= 2 && s[k - 1] == '-') then UpperChar(LowerChar(s[k])) else LowerChar(s[k]))
  }

  lemma DashCase(c: char)
    ensures LowerChar(c) == '-' <==> c == '-'
    ensures UpperChar(LowerChar(c)) == '-' <==> c == '-'
  {
  }

  /**
   * capitalize: header-name casing ("content-length" becomes "Content-Length"). The repeated
   * find_first_of('-', i + 1) is a left-to-right scan starting at index 1.
   */
  method Capitalize(s: string) returns (r: string)
    ensures r == Capitalized(s)
  {
    r := ToLower(s);
    if |r| > 0 {
      r := r[0 := UpperChar(r[0])];
    }
    var j := 1;
    while j < |r|
      invariant |r| == |s| && 1 <= j
      invariant forall k :: 0 <= k <= j && k < |s| ==> r[k] == Capitalized(s)[k]
      invariant forall k :: j < k < |s| ==> r[k] == LowerChar(s[k])
    {
      DashCase(s[j]);
      if r[j] == '-' && j + 1 < |r| {
        r := r[j + 1 := UpperChar(r[j + 1])];
      }
      j := j + 1;
    }
  }

  // ================================================================ strip

  function TrimEnd(s: string, c: char): string {
    if |s| > 0 && s[|s| - 1] == c then TrimEnd(s[..|s| - 1], c) else s
  }

  function TrimStart(s: string, c: char): string {
    if |s| > 0 && s[0] == c then TrimStart(s[1..], c) else s
  }

  /** What strip(s, c) leaves: first the trailing run of `c` goes, then the leading one. */
  function Stripped(s: string, c: char): string {
    TrimStart(TrimEnd(s, c), c)
  }

  /**
   * strip: remove the leading and trailing runs of `c` in place. The C++ scan for the leading
   * run reads the terminating NUL of an emptied string, so `c` must not be NUL.
   */
  method Strip(s: string, c: char) returns (r: string)
    requires c != '\0'
    ensures r == Stripped(s, c)
  {
    if |s| == 0 {
      return s;
    }
    var i := |s|;
    assert s[..|s|] == s;
    while i > 0 && s[i - 1] == c
      invariant 0 <= i <= |s|
      invariant TrimEnd(s[..i], c) == TrimEnd(s, c)
    {
      assert s[..i][..i - 1] == s[..i - 1];
      i := i - 1;
    }
    assert s[..|s|] == s;
    var t := s[..i];
    var j := 0;
    while j < |t| && t[j] == c
      invariant 0 <= j <= |t|
      invariant TrimStart(t[j..], c) == TrimStart(t, c)
    {
      assert t[j..][1..] == t[j + 1..];
      j := j + 1;
    }
    assert t[0..] == t;
    r := t[j..];
  }

  lemma {:induction false} TrimEndShape(s: string, c: char)
    ensures var r := TrimEnd(s, c);
      |r| <= |s| && r == s[..|r|] && (|r| == 0 || r[|r| - 1] != c)
      && forall k :: |r| <= k < |s| ==> s[k] == c
    decreases |s|
  {
    if |s| > 0 && s[|s| - 1] == c {
      TrimEndShape(s[..|s| - 1], c);
    }
  }

  lemma {:induction false} TrimStartShape(s: string, c: char)
    ensures var r := TrimStart(s, c);
      |r| <= |s| && r == s[|s| - |r|..] && (|r| == 0 || r[0] != c)
      && forall k :: 0 <= k < |s| - |r| ==> s[k] == c
    decreases |s|
  {
    if |s| > 0 && s[0] == c {
      TrimStartShape(s[1..], c);
    }
  }

  /**
   * strip keeps the middle intact: the result is a contiguous slice of the input, everything before
   * and after it is `c`, and the result neither starts nor ends with `c`.
   */
  lemma StrippedShape(s: string, c: char)
    ensures var r := Stripped(s, c);
      exists i, j :: 0 <= i <= j <= |s| && r == s[i..j]
        && (forall k :: 0 <= k < i ==> s[k] == c)
        && (forall k :: j <= k < |s| ==> s[k] == c)
    ensures var r := Stripped(s, c);
      |r| == 0 || (r[0] != c && r[|r| - 1] != c)
  {
    var t := TrimEnd(s, c);
    TrimEndShape(s, c);
    TrimStartShape(t, c);
    var r := TrimStart(t, c);
    var i, j := |t| - |r|, |t|;
    assert r == s[i..j];
    if |r| > 0 {
      assert r[|r| - 1] == t[|t| - 1];
    }
  }

  lemma {:induction false} TrimEndFixed(s: string, c: char)
    requires |s| == 0 || s[|s| - 1] != c
    ensures TrimEnd(s, c) == s
  {
  }

  lemma {:induction false} TrimStartFixed(s: string, c: char)
    requires |s| == 0 || s[0] != c
    ensures TrimStart(s, c) == s
  {
  }

  /** Stripping twice equals stripping once. */
  lemma StripIdempotent(s: string, c: char)
    ensures Stripped(Stripped(s, c), c) == Stripped(s, c)
  {
    StrippedShape(s, c);
    var r := Stripped(s, c);
    TrimEndFixed(r, c);
    TrimStartFixed(r, c);
  }

  // ================================================================ readKey / readValue

  /** Where the key of a "Key: value" line ends: at the first ':' or, without one, at the end. */
  function KeyEnd(line: string): nat
    ensures KeyEnd(line) <= |line|
  {
    match Find(line, ":", 0)
    case Some(i) => i
    case None => |line|
  }

  /** readKey: the text before the first ':', capitalized, without surrounding spaces. */
  method ReadKey(line: string) returns (r: string)
    ensures r == Stripped(Capitalized(line[..KeyEnd(line)]), ' ')
  {
    var i := KeyEnd(line);
    var ret := line[..i];
    ret := Capitalize(ret);
    r := Strip(ret, ' ');
  }

  /**
   * Where readValue starts looking for the value. Without a ':', find_first_of returns npos and
   * npos + 1 wraps round to 0, so the whole line is the value.
   */
  function ValueSearchStart(line: string): (r: nat)
    ensures r <= |line|
  {
    match Find(line, ":", 0)
    case Some(i) => i + 1
    case None => 0
  }

  /** readValue: the text after the first ':', without surrounding spaces. */
  method ReadValue(line: string) returns (r: string)
    ensures r == match FindNotChar(line, ' ', ValueSearchStart(line))
                 case Some(j) => Stripped(line[j..], ' ')
                 case None => ""
    ensures r == Stripped(line[ValueSearchStart(line)..], ' ')
  {
    var i := ValueSearchStart(line);
    var ret := "";
    var j := FindNotChar(line, ' ', i);
    if j.Some? {
      ret := line[j.value..];
    }
    r := Strip(ret, ' ');
    ValueStartAgrees(line, i);
  }

  lemma ValueStartAgrees(line: string, i: nat)
    requires i <= |line|
    ensures Stripped(line[i..], ' ') == match FindNotChar(line, ' ', i)
                                        case Some(j) => Stripped(line[j..], ' ')
                                        case None => ""
  {
    var t := line[i..];
    match FindNotChar(line, ' ', i)
    case Some(j) =>
      LeadingSpaces(line, i, j);
    case None =>
      LeadingSpaces(line, i, |line|);
      assert line[|line|..] == [];
  }

  lemma {:induction false} LeadingSpaces(line: string, i: nat, j: nat)
    requires i <= j <= |line|
    requires forall k :: i <= k < j ==> line[k] == ' '
    ensures Stripped(line[i..], ' ') == Stripped(line[j..], ' ')
    decreases j - i
  {
    if i < j {
      LeadingSpaces(line, i + 1, j);
      var t := line[i..];
      TrimEndShape(t, ' ');
      TrimEndShape(line[i + 1..], ' ');
      assert line[i + 1..] == t[1..];
      TrimEndDropFirst(t, ' ');
    }
  }

  /** Dropping one leading `c` before trimming the end commutes with the later start trim. */
  lemma {:induction false} TrimEndDropFirst(t: string, c: char)
    requires |t| > 0 && t[0] == c
    ensures TrimStart(TrimEnd(t, c), c) == TrimStart(TrimEnd(t[1..], c), c)
    decreases |t|
  {
    if |t| > 1 && t[|t| - 1] == c {
      assert t[..|t| - 1][1..] == t[1..][..|t[1..]| - 1];
      TrimEndDropFirst(t[..|t| - 1], c);
    } else if |t| == 1 {
      assert TrimEnd(t, c) == TrimEnd(t[..0], c);
      assert t[..0] == [] == t[1..];
    } else {
      assert TrimEnd(t, c) == t;
      assert TrimEnd(t[1..], c) == t[1..];
    }
  }

  // ================================================================ split

  /** The tokens std::getline yields: pieces between delimiters; a final empty piece is not one. */
  function Tokens(s: string, c: char): seq<string>
    decreases |s|
  {
    if s == [] then []
    else match Find(s, [c], 0)
      case None => [s]
      case Some(i) => [s[..i]] + Tokens(s[i + 1..], c)
  }

  function Join(ts: seq<string>, c: char): string {
    if ts == [] then "" else if |ts| == 1 then ts[0] else ts[0] + [c] + Join(ts[1..], c)
  }

  /** split: cut `s` at every `c`, the way a getline loop over a stringstream does. */
  method Split(s: string, c: char) returns (tokens: seq<string>)
    ensures tokens == Tokens(s, c)
  {
    tokens := [];
    var p := 0;
    while p < |s|
      invariant 0 <= p <= |s|
      invariant tokens + Tokens(s[p..], c) == Tokens(s, c)
      decreases |s| - p
    {
      var rest := s[p..];
      var f := Find(rest, [c], 0);
      if f.None? {
        tokens := tokens + [rest];
        p := |s|;
      } else {
        tokens := tokens + [rest[..f.value]];
        assert rest[f.value + 1..] == s[p + f.value + 1..];
        p := p + f.value + 1;
      }
    }
    assert s[|s|..] == [];
  }

  /** No token contains the delimiter. */
  lemma {:induction false} TokensHaveNoDelimiter(s: string, c: char)
    ensures forall t :: t in Tokens(s, c) ==> c !in t
    decreases |s|
  {
    if s != [] {
      match Find(s, [c], 0)
      case None =>
        forall k | 0 <= k < |s| ensures s[k] != c {
          assert !MatchAt(s, [c], k);
        }
      case Some(i) =>
        TokensHaveNoDelimiter(s[i + 1..], c);
        forall k | 0 <= k < i ensures s[k] != c {
          assert !MatchAt(s, [c], k);
        }
    }
  }

  /** Joining the tokens back gives the input again when it does not end with the delimiter. */
  lemma {:induction false} SplitJoin(s: string, c: char)
    requires |s| == 0 || s[|s| - 1] != c
    ensures Join(Tokens(s, c), c) == s
    decreases |s|
  {
    if s != [] {
      match Find(s, [c], 0)
      case None =>
      case Some(i) =>
        assert MatchAt(s, [c], i);
        var rest := s[i + 1..];
        assert rest != [];
        SplitJoin(rest, c);
        assert Tokens(rest, c) != [];
        assert s == s[..i] + [c] + rest;
    }
  }

  // ================================================================ ft_atoi / ft_stoi

  /** ft_skip_spacenl: the index of the first character after the leading white space. */
  function SkipSpace(s: string, i: nat): (r: nat)
    requires i <= |s|
    decreases |s| - i
    ensures i <= r <= |s| && (r < |s| ==> !IsSpace(s[r]))
    ensures forall k :: i <= k < r ==> IsSpace(s[k])
  {
    if i < |s| && IsSpace(s[i]) then SkipSpace(s, i + 1) else i
  }

  /** The end of the run of digits starting at `i`. */
  function DigitsEnd(s: string, i: nat): (r: nat)
    requires i <= |s|
    decreases |s| - i
    ensures i <= r <= |s| && AllDigits(s[i..r]) && (r < |s| ==> !IsDigit(s[r]))
  {
    if i < |s| && IsDigit(s[i]) then
      var r := DigitsEnd(s, i + 1);
      assert s[i..r] == [s[i]] + s[i + 1..r];
      r
    else i
  }

  /** The number ft_atoi reads: white space, an optional sign, then digits. */
  function AtoiValue(s: string): int {
    var i := SkipSpace(s, 0);
    var neg := i < |s| && s[i] == '-';
    var j := if i < |s| && (s[i] == '-' || s[i] == '+') then i + 1 else i;
    var e := DigitsEnd(s, j);
    (if neg then -1 else 1) * DigitsValue(s[j..e])
  }

  /**
   * ft_atoi: C-style string to int. The C++ version overflows `int` silently (undefined
   * behaviour); the model computes the mathematical value.
   */
  method FtAtoi(s: string) returns (r: int)
    ensures r == AtoiValue(s)
  {
    var i := SkipSpaceNl(s);
    var sign: int := 1;
    if i < |s| && s[i] == '-' {
      sign := -1;
    }
    if i < |s| && (s[i] == '-' || s[i] == '+') {
      i := i + 1;
    }
    var start := i;
    var num;
    i, num := ReadDigits(s, start);
    r := sign * num;
  }

  /** ft_skip_spacenl's loop. */
  method SkipSpaceNl(s: string) returns (i: nat)
    ensures i == SkipSpace(s, 0)
  {
    i := 0;
    while i < |s| && IsSpace(s[i])
      invariant 0 <= i <= |s|
      invariant SkipSpace(s, i) == SkipSpace(s, 0)
    {
      i := i + 1;
    }
  }

  /** ft_atoi's digit loop: the run of digits from `start` and its value. */
  method ReadDigits(s: string, start: nat) returns (i: nat, num: nat)
    requires start <= |s|
    ensures i == DigitsEnd(s, start) && num == DigitsValue(s[start..i])
  {
    i := start;
    num := 0;
    while i < |s| && IsDigit(s[i])
      invariant start <= i <= |s|
      invariant DigitsEnd(s, i) == DigitsEnd(s, start)
      invariant AllDigits(s[start..i]) && num == DigitsValue(s[start..i])
    {
      DigitsValueSnoc(s, start, i);
      num := num * 10 + DigitValue(s[i]);
      i := i + 1;
    }
  }

  lemma DigitsValueSnoc(s: string, start: nat, i: nat)
    requires start <= i < |s| && AllDigits(s[start..i]) && IsDigit(s[i])
    ensures AllDigits(s[start..i + 1])
    ensures DigitsValue(s[start..i + 1]) == DigitsValue(s[start..i]) * 10 + DigitValue(s[i])
  {
    var w := s[start..i + 1];
    assert w == s[start..i] + [s[i]];
    assert w[..|w| - 1] == s[start..i];
    assert w[|w| - 1] == s[i];
  }

  lemma {:induction false} DigitsEndOfDigits(s: string, i: nat)
    requires i <= |s| && AllDigits(s[i..])
    ensures DigitsEnd(s, i) == |s|
    decreases |s| - i
  {
    if i < |s| {
      assert s[i] == s[i..][0];
      assert s[i + 1..] == s[i..][1..];
      DigitsEndOfDigits(s, i + 1);
    }
  }

  /** ft_atoi reads back what operator<< prints for an int. */
  lemma AtoiOfIntToString(n: int)
    ensures AtoiValue(IntToString(n)) == n
  {
    var s := IntToString(n);
    var d := NatToString(if n < 0 then -n else n);
    NatToStringDigits(if n < 0 then -n else n);
    assert !IsSpace(s[0]);
    assert SkipSpace(s, 0) == 0;
    if n < 0 {
      assert s == "-" + d;
      assert s[1..] == d;
      DigitsEndOfDigits(s, 1);
      assert s[1..|s|] == d;
    } else {
      assert s[0] != '-' && s[0] != '+';
      assert s[0..] == d;
      DigitsEndOfDigits(s, 0);
      assert s[0..|s|] == d;
    }
  }

  const INT_MAX: int := 0x7fff_ffff

  /**
   * ft_stoi: at most ten characters, all digits, read by a stringstream into an int. A value
   * above INT_MAX makes the extraction fail, which stores INT_MAX. An empty string is read as 0.
   */
  function FtStoi(s: string): (r: Result<nat, string>)
    ensures r.Success? <==> |s| <= 10 && AllDigits(s)
    ensures r.Success? ==> r.value <= INT_MAX
  {
    if |s| > 10 || !AllDigits(s) then Failure("std::exception")
    else if DigitsValue(s) > INT_MAX then Success(INT_MAX)
    else Success(DigitsValue(s))
  }

  lemma {:induction false} NatToStringLength(n: nat, k: nat)
    requires n < Pow10(k) && k >= 1
    ensures |NatToString(n)| <= k
    decreases k
  {
    if n >= 10 {
      NatToStringLength(n / 10, k - 1);
    }
  }

  function Pow10(k: nat): nat {
    if k == 0 then 1 else 10 * Pow10(k - 1)
  }

  /** ft_stoi reads back every int that to_string prints. */
  lemma FtStoiOfNatToString(n: nat)
    requires n <= INT_MAX
    ensures FtStoi(NatToString(n)) == Success(n)
  {
    NatToStringDigits(n);
    assert Pow10(10) == 10000000000;
    NatToStringLength(n, 10);
  }

  // ================================================================ in_str

  /** in_str(word, str): `word` occurs somewhere in `str`. */
  function InStr(word: string, str: string): (r: bool)
    ensures r <==> Occurs(word, str)
  {
    FindNoneIffAbsent(str, word);
    Find(str, word, 0).Some?
  }

  /** A string is a substring of another only if it is no longer. */
  lemma InStrLength(word: string, str: string)
    requires InStr(word, str)
    ensures |word| <= |str|
  {
    var i :| MatchAt(str, word, i);
  }

  // ================================================================ replace_all

  /** Left-to-right replacement of every non-overlapping `from` by `to`; replaced text is not rescanned. */
  function Replaced(s: string, from: string, to: string): string
    requires |from| > 0
    decreases |s|
  {
    if |s| < |from| then s
    else if s[..|from|] == from then to + Replaced(s[|from|..], from, to)
    else [s[0]] + Replaced(s[1..], from, to)
  }

  lemma {:induction false} ReplacedNoMatch(s: string, from: string, to: string)
    requires |from| > 0
    requires forall j :: 0 <= j ==> !MatchAt(s, from, j)
    ensures Replaced(s, from, to) == s
    decreases |s|
  {
    if |s| >= |from| {
      assert !MatchAt(s, from, 0);
      forall j | 0 <= j ensures !MatchAt(s[1..], from, j) {
        MatchAtDrop(s, from, 1, j);
      }
      ReplacedNoMatch(s[1..], from, to);
    }
  }

  lemma {:induction false} ReplacedSkip(s: string, from: string, to: string, d: nat)
    requires |from| > 0 && d <= |s|
    requires forall j :: 0 <= j < d ==> !MatchAt(s, from, j)
    ensures Replaced(s, from, to) == s[..d] + Replaced(s[d..], from, to)
    decreases d
  {
    if d > 0 {
      assert !MatchAt(s, from, 0);
      forall j | 0 <= j < d - 1 ensures !MatchAt(s[1..], from, j) {
        MatchAtDrop(s, from, 1, j);
      }
      ReplacedSkip(s[1..], from, to, d - 1);
      assert s[1..][d - 1..] == s[d..];
      assert s[..d] == [s[0]] + s[1..][..d - 1];
    } else {
      assert s[..0] == [] && s[0..] == s;
    }
  }

  /** Replacing at the front of a string that starts with `from`. */
  lemma ReplacedAtFront(u: string, from: string, to: string)
    requires |from| > 0 && MatchAt(u, from, 0)
    ensures Replaced(u, from, to) == to + Replaced(u[|from|..], from, to)
  {
    assert u[..|from|] == u[0..0 + |from|];
  }

  /** The first occurrence of `from` in `t`, at `d`, is the first one Replaced rewrites. */
  lemma ReplaceFirst(t: string, from: string, to: string, d: nat)
    requires |from| > 0 && MatchAt(t, from, d)
    requires forall j :: 0 <= j < d ==> !MatchAt(t, from, j)
    ensures Replaced(t, from, to) == t[..d] + to + Replaced(t[d + |from|..], from, to)
  {
    ReplacedSkip(t, from, to, d);
    var u := t[d..];
    MatchAtDrop(t, from, d, 0);
    ReplacedAtFront(u, from, to);
    assert u[|from|..] == t[d + |from|..];
  }

  /** One pass of the replace_all loop: the match found at `p` is the next one Replaced rewrites. */
  lemma ReplaceAllStep(str: string, from: string, to: string, result: string, start: nat, p: nat)
    requires |from| > 0 && start <= p && MatchAt(result, from, p)
    requires forall j :: start <= j < p ==> !MatchAt(result, from, j)
    requires Replaced(str, from, to) == result[..start] + Replaced(result[start..], from, to)
    ensures Replaced(str, from, to) == result[..p] + to + Replaced(result[p + |from|..], from, to)
  {
    ReplaceFrom(result, from, to, start, p);
    Regroup(Replaced(str, from, to), result[..start], Replaced(result[start..], from, to), result[start..p], to,
            Replaced(result[p + |from|..], from, to), result[..p]);
  }

  lemma Regroup(whole: string, pre: string, rest: string, mid: string, to: string, tail: string, prefix: string)
    requires whole == pre + rest && rest == mid + to + tail && pre + mid == prefix
    ensures whole == prefix + to + tail
  {
  }

  /** From `start`, the first match is at `p`: Replaced rewrites it first. */
  lemma ReplaceFrom(result: string, from: string, to: string, start: nat, p: nat)
    requires |from| > 0 && start <= p && MatchAt(result, from, p)
    requires forall j :: start <= j < p ==> !MatchAt(result, from, j)
    ensures result[..start] + result[start..p] == result[..p]
    ensures Replaced(result[start..], from, to) == result[start..p] + to + Replaced(result[p + |from|..], from, to)
  {
    var t := result[start..];
    var d := p - start;
    MatchesFromStart(result, from, start, p);
    ReplaceFirst(t, from, to, d);
    SliceParts(result, start, p, |from|);
    ReplacedOfEqual(t[d + |from|..], result[p + |from|..], from, to);
  }

  lemma ReplacedOfEqual(a: string, b: string, from: string, to: string)
    requires |from| > 0 && a == b
    ensures Replaced(a, from, to) == Replaced(b, from, to)
  {
  }

  /** The matches of `from` in result[start..] are those of result, shifted by `start`. */
  lemma MatchesFromStart(result: string, from: string, start: nat, p: nat)
    requires start <= p && MatchAt(result, from, p)
    requires forall j :: start <= j < p ==> !MatchAt(result, from, j)
    ensures MatchAt(result[start..], from, p - start)
    ensures forall j :: 0 <= j < p - start ==> !MatchAt(result[start..], from, j)
  {
    forall j | 0 <= j < p - start ensures !MatchAt(result[start..], from, j) {
      MatchAtDrop(result, from, start, j);
    }
    MatchAtDrop(result, from, start, p - start);
  }

  lemma SliceParts(s: string, start: nat, p: nat, m: nat)
    requires start <= p && p + m <= |s|
    ensures s[..start] + s[start..p] == s[..p]
    ensures s[start..][..p - start] == s[start..p]
    ensures s[start..][p - start + m..] == s[p + m..]
  {
  }

  /**
   * replace_all: scan for `from`, replace it by `to`, and continue after the inserted text.
   * With an empty `from` (never passed by the server) the C++ loop need not terminate.
   */
  method ReplaceAll(str: string, from: string, to: string) returns (result: string)
    requires |from| > 0
    ensures result == Replaced(str, from, to)
  {
    result := str;
    var start: nat := 0;
    var f := Find(result, from, start);
    while f.Some?
      invariant start <= |result|
      invariant Replaced(str, from, to) == result[..start] + Replaced(result[start..], from, to)
      invariant f == Find(result, from, start)
      decreases |result| - start
    {
      var p := f.value;
      ReplaceAllStep(str, from, to, result, start, p);
      var prefix, rest := result[..p] + to, result[p + |from|..];
      result := prefix + rest;
      start := p + |to|;
      assert result[..start] == prefix && result[start..] == rest;
      f := Find(result, from, start);
    }
    ghost var t := result[start..];
    forall j | 0 <= j ensures !MatchAt(t, from, j) {
      MatchAtDrop(result, from, start, j);
    }
    ReplacedNoMatch(t, from, to);
    assert result == result[..start] + result[start..];
  }

  /** Replacing in a string where `from` does not occur changes nothing. */
  lemma ReplaceAbsent(s: string, from: string, to: string)
    requires |from| > 0 && !InStr(from, s)
    ensures Replaced(s, from, to) == s
  {
    ReplacedNoMatch(s, from, to);
  }

  // ================================================================ path_matches

  /** One trailing '/' dropped, unless the string is "/" itself. */
  function DropTrailingSlash(s: string): string {
    if |s| > 1 && s[|s| - 1] == '/' then s[..|s| - 1] else s
  }

  /** path_matches(prefix, path): `path` is the location `prefix` or lies inside it. */
  function PathMatches(prefix: string, path: string): bool {
    if prefix == "/" then true
    else
      var p := DropTrailingSlash(prefix);
      var q := DropTrailingSlash(path);
      q == p || (|q| > |p| && q[..|p|] == p && q[|p|] == '/')
  }

  /** The root location matches every path. */
  lemma RootMatchesAll(path: string)
    ensures PathMatches("/", path)
  {
  }

  /** A location matches itself, with or without its trailing slash. */
  lemma PathMatchesSelf(prefix: string)
    requires |prefix| > 0 && prefix[|prefix| - 1] != '/'
    ensures PathMatches(prefix, prefix) && PathMatches(prefix + "/", prefix)
    ensures PathMatches(prefix, prefix + "/") && PathMatches(prefix + "/", prefix + "/")
  {
    assert (prefix + "/")[..|prefix|] == prefix;
  }

  /** Every file or directory strictly inside a location matches it. */
  lemma PathMatchesInside(prefix: string, rest: string)
    requires |prefix| > 0 && prefix[|prefix| - 1] != '/'
    requires |rest| > 0 && rest[|rest| - 1] != '/'
    ensures PathMatches(prefix, prefix + "/" + rest)
    ensures PathMatches(prefix + "/", prefix + "/" + rest)
  {
    var q := prefix + "/" + rest;
    assert q[..|prefix|] == prefix;
    assert q[|prefix|] == '/';
  }

  /**
   * A path that matches a location (other than "/") starts with the location's name and
   * continues, if at all, with a '/'.
   */
  lemma PathMatchesPrefix(prefix: string, path: string)
    requires prefix != "/" && PathMatches(prefix, path)
    ensures var p := DropTrailingSlash(prefix);
      |p| <= |path| && path[..|p|] == p && (|path| == |p| || path[|p|] == '/')
  {
    var p := DropTrailingSlash(prefix);
    var q := DropTrailingSlash(path);
    assert q == path[..|q|];
  }

  /** The expectations written next to path_matches in main.cpp's tests(). */
  lemma PathMatchesExamples()
    ensures PathMatches("/img/", "/img/pic.png")
    ensures PathMatches("/img/", "/img/")
    ensures PathMatches("/img/", "/img")
    ensures !PathMatches("/img/", "/imges")
    ensures !PathMatches("/img/", "/im")
    ensures !PathMatches("/img/", "/imggallery")
    ensures PathMatches("/hola/que/", "/hola/que")
    ensures PathMatches("/hola/que/", "/hola/que/")
    ensures PathMatches("/hola/que/", "/hola/que/tal.html")
    ensures !PathMatches("/hola/que/", "/hola/quetal.html")
    ensures PathMatches("/", "/")
    ensures PathMatches("/", "/index.html")
    ensures PathMatches("/", "/images/pic.png")
  {
    assert DropTrailingSlash("/img/") == "/img";
    assert DropTrailingSlash("/hola/que/") == "/hola/que";
    assert "/imges"[4] != '/';
    assert "/imggallery"[4] != '/';
    assert "/hola/quetal.html"[9] != '/';
    assert "/img/pic.png"[..4] == "/img";
    assert "/hola/que/tal.html"[..9] == "/hola/que";
  }

  // ================================================================ method_toEnum / method_toString

  /** The method enum; its integer encoding (M_GET, ...) is not part of this model. */
  datatype Method = GET | POST | DELETE | PUT | HEAD

  function MethodToString(m: Method): string {
    match m
    case GET => "GET"
    case POST => "POST"
    case DELETE => "DELETE"
    case PUT => "PUT"
    case HEAD => "HEAD"
  }

  /** method_toEnum: an unknown name throws std::runtime_error. */
  function MethodToEnum(s: string): Result<Method, string> {
    if s == "GET" then Success(GET)
    else if s == "POST" then Success(POST)
    else if s == "DELETE" then Success(DELETE)
    else if s == "PUT" then Success(PUT)
    else if s == "HEAD" then Success(HEAD)
    else Failure("Invalid method string: " + s)
  }

  /** Every method survives the round trip through its name. */
  lemma MethodRoundTrip(m: Method)
    ensures MethodToEnum(MethodToString(m)) == Success(m)
  {
  }

  /** A name is accepted exactly when it is one of the five method names, and then it round-trips. */
  lemma MethodNameRoundTrip(s: string)
    ensures MethodToEnum(s).Success? <==> s in {"GET", "POST", "DELETE", "PUT", "HEAD"}
    ensures MethodToEnum(s).Success? ==> MethodToString(MethodToEnum(s).value) == s
  {
  }

  // ================================================================ ci_equal

  function CiEqualFrom(a: string, b: string, i: nat): bool
    requires |a| == |b| && i <= |a|
    decreases |a| - i
  {
    if i == |a| then true
    else if LowerChar(a[i]) != LowerChar(b[i]) then false
    else CiEqualFrom(a, b, i + 1)
  }

  /** ci_equal: equal length, and equal character by character after tolower. */
  function CiEqual(a: string, b: string): (r: bool)
    ensures r <==> |a| == |b| && forall i :: 0 <= i < |a| ==> LowerChar(a[i]) == LowerChar(b[i])
  {
    if |a| != |b| then false
    else
      CiEqualFromSpec(a, b, 0);
      CiEqualFrom(a, b, 0)
  }

  lemma {:induction false} CiEqualFromSpec(a: string, b: string, i: nat)
    requires |a| == |b| && i <= |a|
    ensures CiEqualFrom(a, b, i) <==> forall k :: i <= k < |a| ==> LowerChar(a[k]) == LowerChar(b[k])
    decreases |a| - i
  {
    if i < |a| {
      CiEqualFromSpec(a, b, i + 1);
    }
  }

  /** ci_equal agrees with comparing the lower-cased strings. */
  lemma CiEqualIsLowerEquality(a: string, b: string)
    ensures CiEqual(a, b) <==> LowerStr(a) == LowerStr(b)
  {
    if LowerStr(a) == LowerStr(b) {
      assert |a| == |LowerStr(a)|;
      forall i | 0 <= i < |a| ensures LowerChar(a[i]) == LowerChar(b[i]) {
        assert LowerStr(a)[i] == LowerStr(b)[i];
      }
    }
  }

  lemma CiEqualReflexiveSymmetric(a: string, b: string)
    ensures CiEqual(a, a)
    ensures CiEqual(a, b) == CiEqual(b, a)
  {
  }

  lemma CiEqualTransitive(a: string, b: string, c: string)
    requires CiEqual(a, b) && CiEqual(b, c)
    ensures CiEqual(a, c)
  {
  }

  // ================================================================ getFileExtension

  /** getFileExtension: the suffix from the last '.', or "" when there is none. */
  function GetFileExtension(path: string): (r: string)
    ensures '.' !in path ==> r == ""
    ensures '.' in path ==> 0 < |r| <= |path| && r[0] == '.' && '.' !in r[1..]
    ensures '.' in path ==> r == path[|path| - |r|..]
  {
    match RFindChar(path, '.', |path| - 1)
    case None => ""
    case Some(pos) =>
      assert '.' in path[pos..][..1];
      path[pos..]
  }
}
