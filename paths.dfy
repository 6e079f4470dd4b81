/**
 * paths.cpp: decoding of "%20" in request paths and the removal of "//", "/./" and "/../", which
 * keeps a request path from climbing out of the document root through a leading "/../" segment.
 */
module Paths {
  import opened Wrappers
  import opened Text
  import opened Utils

  // ================================================================ clean_path

  /** What clean_path returns: every "%20", scanning left to right, becomes a space. */
  function CleanedPath(path: string): string {
    Replaced(path, "%20", " ")
  }

  /** clean_path. */
  method CleanPath(path: string) returns (cleaned: string)
    ensures cleaned == CleanedPath(path)
  {
    cleaned := ReplaceAll(path, "%20", " ");
  }

  /** How a client percent-encodes the spaces of a path. */
  function EncodeSpaces(s: string): string {
    if s == [] then [] else (if s[0] == ' ' then "%20" else [s[0]]) + EncodeSpaces(s[1..])
  }

  /**
   * clean_path undoes the client's encoding of spaces, for every path that does not itself
   * contain the text "%20".
   */
  lemma {:induction false} CleanPathDecodes(s: string)
    requires !InStr("%20", s)
    ensures CleanedPath(EncodeSpaces(s)) == s
    decreases |s|
  {
    if s != [] {
      var e := EncodeSpaces(s);
      var e1 := EncodeSpaces(s[1..]);
      assert !InStr("%20", s[1..]) by {
        if InStr("%20", s[1..]) {
          var i :| MatchAt(s[1..], "%20", i);
          MatchAtDrop(s, "%20", 1, i);
        }
      }
      CleanPathDecodes(s[1..]);
      if s[0] == ' ' {
        assert e == "%20" + e1;
        assert e[..3] == "%20" && e[3..] == e1;
      } else {
        assert e == [s[0]] + e1;
        assert e[1..] == e1;
      }
    }
  }

  // ================================================================ path_normalization

  /** A "//" at index i. */
  predicate SlashPair(s: string, i: int) {
    0 <= i && i + 1 < |s| && s[i] == '/' && s[i + 1] == '/'
  }

  /** A "/./" at index i. */
  predicate DotSegment(s: string, i: int) {
    0 <= i && i + 2 < |s| && s[i] == '/' && s[i + 1] == '.' && s[i + 2] == '/'
  }

  /** A "/../" at index i. */
  predicate DotDotSegment(s: string, i: int) {
    0 <= i && i + 3 < |s| && s[i] == '/' && s[i + 1] == '.' && s[i + 2] == '.' && s[i + 3] == '/'
  }

  lemma MatchAtChars(s: string, i: int)
    ensures MatchAt(s, "//", i) <==> SlashPair(s, i)
    ensures MatchAt(s, "/./", i) <==> DotSegment(s, i)
    ensures MatchAt(s, "/../", i) <==> DotDotSegment(s, i)
  {
    if 0 <= i && i + 4 <= |s| {
      assert s[i..i + 4] == [s[i], s[i + 1], s[i + 2], s[i + 3]];
    }
    if 0 <= i && i + 3 <= |s| {
      assert s[i..i + 3] == [s[i], s[i + 1], s[i + 2]];
    }
    if 0 <= i && i + 2 <= |s| {
      assert s[i..i + 2] == [s[i], s[i + 1]];
    }
  }

  /** The first loop: replace the first "//" by "/" until none is left. */
  function CollapseSlashes(s: string): string
    decreases |s|
  {
    match Find(s, "//", 0)
    case None => s
    case Some(p) => CollapseSlashes(s[..p] + "/" + s[p + 2..])
  }

  /** The second loop: replace the first "/./" by "/" until none is left. */
  function RemoveDotSegments(s: string): string
    decreases |s|
  {
    match Find(s, "/./", 0)
    case None => s
    case Some(p) => RemoveDotSegments(s[..p] + "/" + s[p + 3..])
  }

  /** One pass of the third loop, on the first "/../" at `p`. */
  function DotDotStep(s: string, p: nat): (t: string)
    requires DotDotSegment(s, p)
    ensures |t| < |s|
  {
    if p == 0 then s[3..]
    else match RFindChar(s, '/', p - 1)
      case None => s[p + 4..]
      case Some(q) => s[..q] + s[p + 3..]
  }

  /** The third loop: resolve the first "/../" against the segment before it until none is left. */
  function ResolveDotDot(s: string): string
    decreases |s|
  {
    match Find(s, "/../", 0)
    case None => s
    case Some(p) =>
      MatchAtChars(s, p);
      ResolveDotDot(DotDotStep(s, p))
  }

  /** What path_normalization returns. */
  function Normalized(path: string): string {
    ResolveDotDot(RemoveDotSegments(CollapseSlashes(path)))
  }

  /** path_normalization: three rewriting loops, each searching again from the start. */
  method PathNormalization(path: string) returns (normalized: string)
    ensures normalized == Normalized(path)
  {
    normalized := CollapseLoop(path);
    normalized := DotLoop(normalized);
    normalized := DotDotLoop(normalized);
  }

  /** The first loop of path_normalization: "//" becomes "/". */
  method CollapseLoop(path: string) returns (normalized: string)
    ensures normalized == CollapseSlashes(path)
  {
    normalized := path;
    var pos := Find(normalized, "//", 0);
    while pos.Some?
      invariant pos == Find(normalized, "//", 0)
      invariant CollapseSlashes(normalized) == CollapseSlashes(path)
      decreases |normalized|
    {
      normalized := normalized[..pos.value] + "/" + normalized[pos.value + 2..];
      pos := Find(normalized, "//", 0);
    }
  }

  /** The second loop of path_normalization: "/./" becomes "/". */
  method DotLoop(path: string) returns (normalized: string)
    ensures normalized == RemoveDotSegments(path)
  {
    normalized := path;
    var pos := Find(normalized, "/./", 0);
    while pos.Some?
      invariant pos == Find(normalized, "/./", 0)
      invariant RemoveDotSegments(normalized) == RemoveDotSegments(path)
      decreases |normalized|
    {
      normalized := normalized[..pos.value] + "/" + normalized[pos.value + 3..];
      pos := Find(normalized, "/./", 0);
    }
  }

  /** The third loop of path_normalization: "/../" consumes the segment before it. */
  method DotDotLoop(path: string) returns (normalized: string)
    ensures normalized == ResolveDotDot(path)
  {
    normalized := path;
    var pos := Find(normalized, "/../", 0);
    while pos.Some?
      invariant pos == Find(normalized, "/../", 0)
      invariant ResolveDotDot(normalized) == ResolveDotDot(path)
      decreases |normalized|
    {
      var p := pos.value;
      MatchAtChars(normalized, p);
      if p == 0 {
        normalized := normalized[3..];
      } else {
        var prev := RFindChar(normalized, '/', p - 1);
        if prev.None? {
          normalized := normalized[p + 4..];
        } else {
          normalized := normalized[..prev.value] + normalized[p + 3..];
        }
      }
      pos := Find(normalized, "/../", 0);
    }
  }

  // ---------------------------------------------------------------- what each loop leaves behind

  predicate NoSlashPair(s: string) {
    forall i :: 0 <= i < |s| ==> !SlashPair(s, i)
  }

  predicate NoDotSegment(s: string) {
    forall i :: 0 <= i < |s| ==> !DotSegment(s, i)
  }

  predicate NoDotDotSegment(s: string) {
    forall i :: 0 <= i < |s| ==> !DotDotSegment(s, i)
  }

  lemma NoneFound(s: string, pat: string)
    requires Find(s, pat, 0).None?
    ensures pat == "//" ==> NoSlashPair(s)
    ensures pat == "/./" ==> NoDotSegment(s)
    ensures pat == "/../" ==> NoDotDotSegment(s)
  {
    forall i ensures pat == "//" ==> !SlashPair(s, i) {
      MatchAtChars(s, i);
    }
    forall i ensures pat == "/./" ==> !DotSegment(s, i) {
      MatchAtChars(s, i);
    }
    forall i ensures pat == "/../" ==> !DotDotSegment(s, i) {
      MatchAtChars(s, i);
    }
  }

  /** No "//" survives the first loop, and the path never grows. */
  lemma {:induction false} CollapseSlashesClean(s: string)
    ensures NoSlashPair(CollapseSlashes(s))
    ensures |CollapseSlashes(s)| <= |s|
    decreases |s|
  {
    match Find(s, "//", 0)
    case None => NoneFound(s, "//");
    case Some(p) => CollapseSlashesClean(s[..p] + "/" + s[p + 2..]);
  }

  /** Replacing a "/./" by "/" creates no "//". */
  lemma DotStepKeepsSlashes(s: string, p: nat)
    requires NoSlashPair(s) && DotSegment(s, p)
    ensures NoSlashPair(s[..p] + "/" + s[p + 3..])
  {
    var t := s[..p] + "/" + s[p + 3..];
    forall i | 0 <= i < |t| ensures !SlashPair(t, i) {
      if i + 1 < p {
        assert SlashPair(t, i) == SlashPair(s, i);
      } else if i + 1 == p {
        assert SlashPair(t, i) == SlashPair(s, i);
      } else if i == p {
        assert SlashPair(t, p) == SlashPair(s, p + 2);
      } else {
        assert SlashPair(t, i) == SlashPair(s, i + 2);
      }
    }
  }

  /** The second loop leaves no "/./", creates no "//", and never grows the path. */
  lemma {:induction false} RemoveDotSegmentsClean(s: string)
    requires NoSlashPair(s)
    ensures NoSlashPair(RemoveDotSegments(s)) && NoDotSegment(RemoveDotSegments(s))
    ensures |RemoveDotSegments(s)| <= |s|
    decreases |s|
  {
    match Find(s, "/./", 0)
    case None => NoneFound(s, "/./");
    case Some(p) =>
      MatchAtChars(s, p);
      DotStepKeepsSlashes(s, p);
      RemoveDotSegmentsClean(s[..p] + "/" + s[p + 3..]);
  }

  /** A "/../" step creates neither "//" nor "/./". */
  lemma DotDotStepKeeps(s: string, p: nat)
    requires NoSlashPair(s) && NoDotSegment(s) && DotDotSegment(s, p)
    ensures NoSlashPair(DotDotStep(s, p)) && NoDotSegment(DotDotStep(s, p))
  {
    var t := DotDotStep(s, p);
    if p == 0 {
      ShiftKeeps(s, 3);
    } else {
      match RFindChar(s, '/', p - 1)
      case None => ShiftKeeps(s, p + 4);
      case Some(q) =>
        var d := p + 3 - q;
        assert t == s[..q] + s[p + 3..];
        assert forall j :: 0 <= j < q ==> t[j] == s[j];
        assert forall j :: q <= j < |t| ==> t[j] == s[j + d];
        forall i | 0 <= i < |t| ensures !SlashPair(t, i) {
          if i + 1 < q {
            assert SlashPair(t, i) == SlashPair(s, i);
          } else if i + 1 == q {
            assert SlashPair(t, i) == SlashPair(s, i);
          } else {
            assert SlashPair(t, i) == SlashPair(s, i + d);
          }
        }
        forall i | 0 <= i < |t| ensures !DotSegment(t, i) {
          if i + 2 < q {
            assert DotSegment(t, i) == DotSegment(s, i);
          } else if i + 2 == q {
            assert DotSegment(t, i) == DotSegment(s, i);
          } else if i >= q {
            assert DotSegment(t, i) == DotSegment(s, i + d);
          }
        }
    }
  }

  /** Dropping a prefix creates neither "//" nor "/./". */
  lemma ShiftKeeps(s: string, d: nat)
    requires d <= |s| && NoSlashPair(s) && NoDotSegment(s)
    ensures NoSlashPair(s[d..]) && NoDotSegment(s[d..])
  {
    var t := s[d..];
    forall i | 0 <= i < |t| ensures !SlashPair(t, i) {
      assert SlashPair(t, i) == SlashPair(s, i + d);
    }
    forall i | 0 <= i < |t| ensures !DotSegment(t, i) {
      assert DotSegment(t, i) == DotSegment(s, i + d);
    }
  }

  /** The third loop leaves none of the three patterns and never grows the path. */
  lemma {:induction false} ResolveDotDotClean(s: string)
    requires NoSlashPair(s) && NoDotSegment(s)
    ensures var r := ResolveDotDot(s);
      NoSlashPair(r) && NoDotSegment(r) && NoDotDotSegment(r) && |r| <= |s|
    decreases |s|
  {
    match Find(s, "/../", 0)
    case None => NoneFound(s, "/../");
    case Some(p) =>
      MatchAtChars(s, p);
      DotDotStepKeeps(s, p);
      ResolveDotDotClean(DotDotStep(s, p));
  }

  /**
   * A normalized path holds no "//", no "/./" and no "/../", and is no longer than the
   * request path.
   */
  lemma NormalizedClean(path: string)
    ensures var r := Normalized(path);
      !InStr("//", r) && !InStr("/./", r) && !InStr("/../", r) && |r| <= |path|
  {
    CollapseSlashesClean(path);
    var s1 := CollapseSlashes(path);
    RemoveDotSegmentsClean(s1);
    var s2 := RemoveDotSegments(s1);
    ResolveDotDotClean(s2);
    var r := ResolveDotDot(s2);
    forall i ensures !MatchAt(r, "//", i) && !MatchAt(r, "/./", i) && !MatchAt(r, "/../", i) {
      MatchAtChars(r, i);
    }
  }

  /** A path that holds none of the three patterns passes unchanged. */
  lemma NormalizedFixed(path: string)
    requires !InStr("//", path) && !InStr("/./", path) && !InStr("/../", path)
    ensures Normalized(path) == path
  {
    FindNoneIffAbsent(path, "//");
    FindNoneIffAbsent(path, "/./");
    FindNoneIffAbsent(path, "/../");
  }

  /** Normalizing twice changes nothing more. */
  lemma NormalizedIdempotent(path: string)
    ensures Normalized(Normalized(path)) == Normalized(path)
  {
    NormalizedClean(path);
    NormalizedFixed(Normalized(path));
  }

  lemma FindAbsent(s: string, pat: string)
    requires pat == "//" ==> NoSlashPair(s)
    requires pat == "/./" ==> NoDotSegment(s)
    requires pat == "/../" ==> NoDotDotSegment(s)
    requires pat in {"//", "/./", "/../"}
    ensures Find(s, pat, 0) == None
  {
    if Find(s, pat, 0).Some? {
      MatchAtChars(s, Find(s, pat, 0).value);
    }
  }

  // ---------------------------------------------------------------- ".." segments

  /** A search whose pattern cannot start inside the prefix finds what the search of the rest finds, shifted. */
  lemma FindPastPrefix(p: string, y: string, pat: string)
    requires forall j :: 0 <= j < |p| ==> !MatchAt(p + y, pat, j)
    ensures Find(p + y, pat, 0) == match Find(y, pat, 0) case None => None case Some(k) => Some(|p| + k)
  {
    var s := p + y;
    assert s[|p|..] == y;
    match Find(y, pat, 0)
    case None =>
      if Find(s, pat, 0).Some? {
        var m := Find(s, pat, 0).value;
        MatchAtDrop(s, pat, |p|, m - |p|);
      }
    case Some(k) =>
      MatchAtDrop(s, pat, |p|, k);
      forall j | |p| <= j < |p| + k ensures !MatchAt(s, pat, j) {
        MatchAtDrop(s, pat, |p|, j - |p|);
      }
      FindAt(s, pat, 0, |p| + k);
  }

  /** Neither "//" nor "/./" can start inside a leading "/..". */
  lemma NoPatternInDots(y: string)
    ensures forall j :: 0 <= j < 3 ==> !MatchAt("/.." + y, "//", j) && !MatchAt("/.." + y, "/./", j)
  {
    var s := "/.." + y;
    forall j | 0 <= j < 3 ensures !MatchAt(s, "//", j) && !MatchAt(s, "/./", j) {
      MatchAtChars(s, j);
      assert s[1] == '.' && s[2] == '.';
    }
  }

  /** The first loop leaves a leading "/.." alone. */
  lemma {:induction false} CollapseAfterDots(y: string)
    ensures CollapseSlashes("/.." + y) == "/.." + CollapseSlashes(y)
    decreases |y|
  {
    NoPatternInDots(y);
    FindPastPrefix("/..", y, "//");
    match Find(y, "//", 0)
    case None =>
    case Some(k) =>
      var y' := y[..k] + "/" + y[k + 2..];
      assert ("/.." + y)[..3 + k] + "/" + ("/.." + y)[3 + k + 2..] == "/.." + y';
      CollapseAfterDots(y');
  }

  /** The second loop leaves a leading "/.." alone. */
  lemma {:induction false} RemoveDotsAfterDots(y: string)
    ensures RemoveDotSegments("/.." + y) == "/.." + RemoveDotSegments(y)
    decreases |y|
  {
    NoPatternInDots(y);
    FindPastPrefix("/..", y, "/./");
    match Find(y, "/./", 0)
    case None =>
    case Some(k) =>
      var y' := y[..k] + "/" + y[k + 3..];
      assert ("/.." + y)[..3 + k] + "/" + ("/.." + y)[3 + k + 3..] == "/.." + y';
      RemoveDotsAfterDots(y');
  }

  /** A path that starts with '/' keeps it through the first loop. */
  lemma {:induction false} CollapseKeepsRoot(s: string)
    requires |s| > 0 && s[0] == '/'
    ensures |CollapseSlashes(s)| > 0 && CollapseSlashes(s)[0] == '/'
    decreases |s|
  {
    match Find(s, "//", 0)
    case None =>
    case Some(p) =>
      var t := s[..p] + "/" + s[p + 2..];
      assert t[0] == '/';
      CollapseKeepsRoot(t);
  }

  /** A path that starts with '/' keeps it through the second loop. */
  lemma {:induction false} RemoveDotsKeepsRoot(s: string)
    requires |s| > 0 && s[0] == '/'
    ensures |RemoveDotSegments(s)| > 0 && RemoveDotSegments(s)[0] == '/'
    decreases |s|
  {
    match Find(s, "/./", 0)
    case None =>
    case Some(p) =>
      var t := s[..p] + "/" + s[p + 3..];
      assert t[0] == '/';
      RemoveDotsKeepsRoot(t);
  }

  /** A leading "/../" is dropped: the path normalises as if it began at the root, so it cannot climb above it. */
  lemma NormalizedLeadingDotDot(x: string)
    ensures Normalized("/../" + x) == Normalized("/" + x)
  {
    var y := "/" + x;
    assert "/../" + x == "/.." + y;
    CollapseAfterDots(y);
    CollapseKeepsRoot(y);
    var z := CollapseSlashes(y);
    RemoveDotsAfterDots(z);
    RemoveDotsKeepsRoot(z);
    var w := RemoveDotSegments(z);
    var s := "/.." + w;
    assert DotDotSegment(s, 0);
    MatchAtChars(s, 0);
    FindAt(s, "/../", 0, 0);
    assert DotDotStep(s, 0) == w;
  }

  /** Starts with '/' and ends with "/..". */
  predicate RootedDotDotEnd(s: string) {
    |s| >= 3 && s[0] == '/' && s[|s| - 3] == '/' && s[|s| - 2] == '.' && s[|s| - 1] == '.'
  }

  /** One step of the first loop keeps a path rooted and ending in "/..". */
  lemma CollapseStepKeepsEnd(s: string, p: nat)
    requires RootedDotDotEnd(s) && SlashPair(s, p)
    ensures RootedDotDotEnd(s[..p] + "/" + s[p + 2..])
  {
    var t := s[..p] + "/" + s[p + 2..];
    assert p + 2 <= |s| - 2;
    assert t[|t| - 1] == s[|s| - 1] && t[|t| - 2] == s[|s| - 2];
    if p + 2 == |s| - 2 {
      assert t[|t| - 3] == '/';
    } else {
      assert t[|t| - 3] == s[|s| - 3];
    }
  }

  /** One step of the second loop keeps a path rooted and ending in "/..". */
  lemma DotStepKeepsEnd(s: string, p: nat)
    requires RootedDotDotEnd(s) && DotSegment(s, p)
    ensures RootedDotDotEnd(s[..p] + "/" + s[p + 3..])
  {
    var t := s[..p] + "/" + s[p + 3..];
    assert p + 3 <= |s| - 2;
    assert t[|t| - 1] == s[|s| - 1] && t[|t| - 2] == s[|s| - 2];
    if p + 3 == |s| - 2 {
      assert t[|t| - 3] == '/';
    } else {
      assert t[|t| - 3] == s[|s| - 3];
    }
  }

  /** One step of the third loop keeps a path rooted and ending in "/..": the '/' at the start is always found. */
  lemma DotDotStepKeepsEnd(s: string, p: nat)
    requires RootedDotDotEnd(s) && DotDotSegment(s, p)
    ensures RootedDotDotEnd(DotDotStep(s, p))
  {
    if p == 0 {
      DropKeepsEnd(s, 3);
    } else {
      var r := RFindChar(s, '/', p - 1);
      assert r.Some?;
      CutKeepsEnd(s, r.value, p + 3);
    }
  }

  /** Dropping a prefix up to a '/' that comes before the final "/.." keeps the path rooted and ending in "/..". */
  lemma DropKeepsEnd(s: string, d: nat)
    requires RootedDotDotEnd(s) && d <= |s| - 3 && s[d] == '/'
    ensures RootedDotDotEnd(s[d..])
  {
  }

  /** Cutting s[q..e] out, from a '/' or the start to a '/' that is not past the final "/..", keeps the path rooted and ending in "/..". */
  lemma CutKeepsEnd(s: string, q: nat, e: nat)
    requires RootedDotDotEnd(s) && q < e <= |s| - 3 && s[e] == '/'
    ensures RootedDotDotEnd(s[..q] + s[e..])
  {
    var t := s[..q] + s[e..];
    assert t[|t| - 1] == s[|s| - 1] && t[|t| - 2] == s[|s| - 2] && t[|t| - 3] == s[|s| - 3];
    if q == 0 {
      assert t[0] == s[e];
    } else {
      assert t[0] == s[0];
    }
  }

  lemma {:induction false} CollapseKeepsEnd(s: string)
    requires RootedDotDotEnd(s)
    ensures RootedDotDotEnd(CollapseSlashes(s))
    decreases |s|
  {
    match Find(s, "//", 0)
    case None =>
    case Some(p) =>
      MatchAtChars(s, p);
      CollapseStepKeepsEnd(s, p);
      CollapseKeepsEnd(s[..p] + "/" + s[p + 2..]);
  }

  lemma {:induction false} RemoveDotsKeepsEnd(s: string)
    requires RootedDotDotEnd(s)
    ensures RootedDotDotEnd(RemoveDotSegments(s))
    decreases |s|
  {
    match Find(s, "/./", 0)
    case None =>
    case Some(p) =>
      MatchAtChars(s, p);
      DotStepKeepsEnd(s, p);
      RemoveDotsKeepsEnd(s[..p] + "/" + s[p + 3..]);
  }

  lemma {:induction false} ResolveKeepsEnd(s: string)
    requires RootedDotDotEnd(s)
    ensures RootedDotDotEnd(ResolveDotDot(s))
    decreases |s|
  {
    match Find(s, "/../", 0)
    case None =>
    case Some(p) =>
      MatchAtChars(s, p);
      DotDotStepKeepsEnd(s, p);
      ResolveKeepsEnd(DotDotStep(s, p));
  }

  /**
   * A final "/.." that no '/' follows is not a "/../" segment: a path that starts with '/' and ends
   * with "/.." still does after normalisation.
   */
  lemma NormalizedTrailingDotDot(s: string)
    requires RootedDotDotEnd(s)
    ensures RootedDotDotEnd(Normalized(s))
  {
    CollapseKeepsEnd(s);
    RemoveDotsKeepsEnd(CollapseSlashes(s));
    ResolveKeepsEnd(RemoveDotSegments(CollapseSlashes(s)));
  }

  /** Without a leading '/' the final ".." can go: "x/../.." normalises to "..". */
  lemma NormalizedRelativeDotDot()
    ensures Normalized("x/../..") == ".."
  {
    var s := "x/../..";
    FindAbsent(s, "//");
    assert CollapseSlashes(s) == s;
    FindAbsent(s, "/./");
    assert RemoveDotSegments(s) == s;
    assert DotDotSegment(s, 1);
    MatchAtChars(s, 0);
    MatchAtChars(s, 1);
    FindAt(s, "/../", 0, 1);
    assert RFindChar(s, '/', 0) == None;
    var t := s[5..];
    assert DotDotStep(s, 1) == t;
    assert t == "..";
    FindAbsent(t, "/../");
  }

  /**
   * An inner "/../" removes the segment before it: when the first two loops have nothing to do and
   * the first "/../" follows the segment seg, the path normalises as if "seg/../" were not there.
   */
  lemma NormalizedInnerDotDot(a: string, seg: string, b: string)
    requires '/' !in seg
    requires var s := a + "/" + seg + "/../" + b; NoSlashPair(s) && NoDotSegment(s)
    requires NoDotDotSegment(a + "/" + seg + "/..")
    ensures Normalized(a + "/" + seg + "/../" + b) == Normalized(a + "/" + b)
  {
    var s := a + "/" + seg + "/../" + b;
    var pre := a + "/" + seg + "/..";
    var p := |a| + 1 + |seg|;
    assert s == pre + "/" + b;
    FindAbsent(s, "//");
    FindAbsent(s, "/./");
    assert DotDotSegment(s, p);
    MatchAtChars(s, p);
    forall j | 0 <= j < p ensures !MatchAt(s, "/../", j) {
      MatchAtChars(s, j);
      if DotDotSegment(s, j) {
        assert DotDotSegment(pre, j);
      }
    }
    FindAt(s, "/../", 0, p);
    assert s[|a|] == '/';
    forall k | |a| < k <= p - 1 ensures s[k] != '/' {
      assert s[k] == seg[k - |a| - 1];
    }
    assert RFindChar(s, '/', p - 1) == Some(|a|);
    var t := DotDotStep(s, p);
    assert t == a + "/" + b;
    DotDotStepKeeps(s, p);
    FindAbsent(t, "//");
    FindAbsent(t, "/./");
  }

  /** "/a//b/./c/../d" becomes "/a/b/d": each loop does its part. */
  lemma NormalizedExample()
    ensures Normalized("/a//b/./c/../d") == "/a/b/d"
  {
    assert RemoveDotSegments(CollapseSlashes("/a//b/./c/../d")) == "/a/b/c/../d" by {
      ExampleCollapse();
      ExampleDots();
    }
    ExampleResolve();
  }

  /** The third loop on the example: "/c/../" takes the segment c with it. */
  lemma ExampleResolve()
    ensures ResolveDotDot("/a/b/c/../d") == "/a/b/d"
  {
    ExampleInner();
    ExampleResult();
    ExampleFirstLoopsIdle();
  }

  /** The inner "/../" of the example removes the segment c. */
  lemma ExampleInner()
    ensures Normalized("/a/b/c/../d") == Normalized("/a/b/d")
  {
    NormalizedInnerDotDot("/a/b", "c", "d");
    assert "/a/b" + "/" + "c" + "/../" + "d" == "/a/b/c/../d";
    assert "/a/b" + "/" + "d" == "/a/b/d";
  }

  /** The result of the example is already normal. */
  lemma ExampleResult()
    ensures Normalized("/a/b/d") == "/a/b/d"
  {
    CleanHasNone("/a/b/d");
    NormalizedFixed("/a/b/d");
  }

  /** The first two loops have nothing left to do on the example's intermediate path. */
  lemma ExampleFirstLoopsIdle()
    ensures Normalized("/a/b/c/../d") == ResolveDotDot("/a/b/c/../d")
  {
    FindAbsent("/a/b/c/../d", "//");
    FindAbsent("/a/b/c/../d", "/./");
  }

  /** The first loop on the example. */
  lemma ExampleCollapse()
    ensures CollapseSlashes("/a//b/./c/../d") == "/a/b/./c/../d"
  {
    var s0 := "/a//b/./c/../d";
    var s1 := "/a/b/./c/../d";
    MatchAtChars(s0, 0);
    MatchAtChars(s0, 1);
    MatchAtChars(s0, 2);
    FindAt(s0, "//", 0, 2);
    assert s0[..2] + "/" + s0[4..] == s1;
    FindAbsent(s1, "//");
  }

  /** The second loop on the example. */
  lemma ExampleDots()
    ensures RemoveDotSegments("/a/b/./c/../d") == "/a/b/c/../d"
  {
    var s1 := "/a/b/./c/../d";
    var s2 := "/a/b/c/../d";
    assert DotSegment(s1, 4);
    forall j | 0 <= j < 4 ensures !MatchAt(s1, "/./", j) {
      MatchAtChars(s1, j);
    }
    MatchAtChars(s1, 4);
    FindAt(s1, "/./", 0, 4);
    assert s1[..4] + "/" + s1[7..] == s2;
    FindAbsent(s2, "/./");
  }

  /** A path free of the three patterns character by character holds none of them as a substring. */
  lemma CleanHasNone(s: string)
    requires NoSlashPair(s) && NoDotSegment(s) && NoDotDotSegment(s)
    ensures !InStr("//", s) && !InStr("/./", s) && !InStr("/../", s)
  {
    forall i ensures !MatchAt(s, "//", i) && !MatchAt(s, "/./", i) && !MatchAt(s, "/../", i) {
      MatchAtChars(s, i);
    }
  }
}
