/**
 * Reader: the incremental request reader of ServerManager.cpp. A client's ClientRequest
 * accumulates what recv delivers; parse_headers reads the request line and the headers once the
 * blank line has arrived; the size and completeness rules decide when to answer; and
 * _drain_request_body reads and discards a body the server will not use. recv is modelled as a
 * sequence of results.
 */
module Reader {
  import opened Wrappers
  import opened Text
  import opened Utils
  import opened Records
  import opened Routing

  // ================================================================ ClientRequest

  /** ClientRequest: `headerEnd` None stands for std::string::npos. */
  datatype ClientRequest = ClientRequest(
    buffer: string,
    maxSize: nat,
    currentSize: nat,
    contentLength: int,
    isChunked: bool,
    headerEnd: Option<nat>,
    bodyStart: nat,
    requestPath: string,
    methodName: string,
    headersParsed: bool)

  /** current_size counts exactly the bytes in the buffer. */
  predicate Consistent(cr: ClientRequest) {
    cr.currentSize == |cr.buffer|
  }

  /** The default-constructed ClientRequest. */
  function FreshRequest(): (cr: ClientRequest)
    ensures Consistent(cr) && cr.buffer == "" && cr.contentLength == -1
    ensures !cr.headersParsed && !cr.isChunked && cr.headerEnd.None?
  {
    ClientRequest("", 0, 0, -1, false, None, 0, "", "", false)
  }

  /** append_to_buffer: the chunk goes at the end and the count grows by its length. */
  function AppendToBuffer(cr: ClientRequest, chunk: string): (r: ClientRequest)
    ensures r.buffer == cr.buffer + chunk && r.currentSize == cr.currentSize + |chunk|
    ensures Consistent(cr) ==> Consistent(r)
    ensures r.(buffer := cr.buffer, currentSize := cr.currentSize) == cr
  {
    cr.(buffer := cr.buffer + chunk, currentSize := cr.currentSize + |chunk|)
  }

  /** The received body bytes: what follows body_start, or 0 while the buffer is shorter. */
  function BodyBytes(cr: ClientRequest): nat {
    if cr.currentSize > cr.bodyStart then cr.currentSize - cr.bodyStart else 0
  }

  // ================================================================ strtol

  const LONG_MAX: int := 0x7fff_ffff_ffff_ffff
  const LONG_MIN: int := -0x8000_0000_0000_0000

  /** strtol(val, NULL, 10): white space, an optional sign, digits; saturated to the range of long. */
  function Strtol(s: string): (r: int)
    ensures LONG_MIN <= r <= LONG_MAX
    ensures LONG_MIN <= AtoiValue(s) <= LONG_MAX ==> r == AtoiValue(s)
    ensures AtoiValue(s) > LONG_MAX ==> r == LONG_MAX
    ensures AtoiValue(s) < LONG_MIN ==> r == LONG_MIN
  {
    var v := AtoiValue(s);
    if v > LONG_MAX then LONG_MAX else if v < LONG_MIN then LONG_MIN else v
  }

  /** Every number in the range of long reads back from its decimal rendering. */
  lemma StrtolOfIntToString(n: int)
    requires LONG_MIN <= n <= LONG_MAX
    ensures Strtol(IntToString(n)) == n
  {
    AtoiOfIntToString(n);
  }

  /** A run of digits too large for long saturates to LONG_MAX, and after a '-' to LONG_MIN. */
  lemma StrtolSaturates(d: string)
    requires |d| > 0 && AllDigits(d) && DigitsValue(d) > LONG_MAX
    ensures Strtol(d) == LONG_MAX
    ensures DigitsValue(d) > -LONG_MIN ==> Strtol("-" + d) == LONG_MIN
  {
    assert !IsSpace(d[0]);
    DigitRunEnd(d, 0);
    assert d[0..|d|] == d;
    var m := "-" + d;
    assert !IsSpace(m[0]);
    assert m[1..] == d;
    DigitRunEnd(m, 1);
    assert m[1..|m|] == d;
  }

  /** A string that is digits from i on has its digit run end at its end. */
  lemma DigitRunEnd(s: string, i: nat)
    requires i <= |s| && AllDigits(s[i..])
    ensures DigitsEnd(s, i) == |s|
  {
    forall k | i <= k < |s| ensures IsDigit(s[k]) {
      assert s[k] == s[i..][k - i];
    }
  }

  /** The content_length a Content-Length value gives: strtol's reading, a negative one becoming -1. */
  function DeclaredLength(val: string): (r: int)
    ensures r >= -1
    ensures r == -1 <==> AtoiValue(val) < 0
    ensures 0 <= AtoiValue(val) <= LONG_MAX ==> r == AtoiValue(val)
  {
    var n := Strtol(val);
    if n < 0 then -1 else n
  }

  /** A decimal number in range is read back as itself. */
  lemma DeclaredLengthOfDecimal(n: nat)
    requires n <= LONG_MAX
    ensures DeclaredLength(NatToString(n)) == n
  {
    AtoiOfIntToString(n);
    assert IntToString(n) == NatToString(n);
  }

  /** A value that does not start with a sign or a digit after its white space declares length 0, not "absent". */
  lemma DeclaredLengthOfText(val: string)
    requires var i := SkipSpace(val, 0); i == |val| || !(IsDigit(val[i]) || val[i] == '-' || val[i] == '+')
    ensures DeclaredLength(val) == 0
  {
    var i := SkipSpace(val, 0);
    assert DigitsEnd(val, i) == i;
    assert val[i..i] == "";
  }

  // ================================================================ header lines

  const HEADER_TERMINATOR: string := "\r\n\r\n"
  const CONTENT_LENGTH_KEY: string := "Content-Length"
  const TRANSFER_ENCODING_KEY: string := "Transfer-Encoding"
  const CHUNKED: string := "chunked"

  /** The position of a line's first ':'. */
  function Colon(line: string): Option<nat> {
    Find(line, ":", 0)
  }

  /** The line has a ':' and the text before it, stripped of spaces, is `name` up to case. */
  predicate IsHeader(line: string, name: string) {
    match Colon(line)
    case None => false
    case Some(c) => CiEqual(Stripped(line[..c], ' '), name)
  }

  /** The text after the first ':', stripped of spaces. */
  function HeaderValue(line: string): string {
    match Colon(line)
    case None => ""
    case Some(c) => Stripped(line[c + 1..], ' ')
  }

  /** A Transfer-Encoding line whose lower-cased value contains "chunked". */
  predicate ChunkedLine(line: string) {
    IsHeader(line, TRANSFER_ENCODING_KEY) && InStr(CHUNKED, LowerStr(HeaderValue(line)))
  }

  /** One iteration of the header loop on (content_length, is_chunked). */
  function HeaderLineUpdate(line: string, cl: int, chunked: bool): (int, bool) {
    (if IsHeader(line, CONTENT_LENGTH_KEY) then DeclaredLength(HeaderValue(line)) else cl,
     chunked || ChunkedLine(line))
  }

  /** The header loop over a list of lines, first to last. */
  function FoldLines(lines: seq<string>, cl: int, chunked: bool): (int, bool)
    decreases |lines|
  {
    if lines == [] then (cl, chunked)
    else
      var t := HeaderLineUpdate(lines[0], cl, chunked);
      FoldLines(lines[1..], t.0, t.1)
  }

  /** Without a Content-Length line, content_length is left as it was. */
  lemma {:induction false} FoldLinesNoLength(lines: seq<string>, cl: int, chunked: bool)
    requires forall i :: 0 <= i < |lines| ==> !IsHeader(lines[i], CONTENT_LENGTH_KEY)
    ensures FoldLines(lines, cl, chunked).0 == cl
    decreases |lines|
  {
    if lines != [] {
      var t := HeaderLineUpdate(lines[0], cl, chunked);
      var rest := lines[1..];
      assert !IsHeader(lines[0], CONTENT_LENGTH_KEY);
      forall i | 0 <= i < |rest| ensures !IsHeader(rest[i], CONTENT_LENGTH_KEY) {
        assert rest[i] == lines[i + 1];
      }
      FoldLinesNoLength(rest, t.0, t.1);
    }
  }

  /** The last Content-Length line decides content_length. */
  lemma {:induction false} FoldLinesLastLength(lines: seq<string>, cl: int, chunked: bool, k: nat)
    requires k < |lines| && IsHeader(lines[k], CONTENT_LENGTH_KEY)
    requires forall j :: k < j < |lines| ==> !IsHeader(lines[j], CONTENT_LENGTH_KEY)
    ensures FoldLines(lines, cl, chunked).0 == DeclaredLength(HeaderValue(lines[k]))
    decreases |lines|
  {
    var t := HeaderLineUpdate(lines[0], cl, chunked);
    var rest := lines[1..];
    if k == 0 {
      forall i | 0 <= i < |rest| ensures !IsHeader(rest[i], CONTENT_LENGTH_KEY) {
        assert rest[i] == lines[i + 1];
      }
      FoldLinesNoLength(rest, t.0, t.1);
    } else {
      assert rest[k - 1] == lines[k];
      forall j | k - 1 < j < |rest| ensures !IsHeader(rest[j], CONTENT_LENGTH_KEY) {
        assert rest[j] == lines[j + 1];
      }
      FoldLinesLastLength(rest, t.0, t.1, k - 1);
    }
  }

  /** content_length never drops below -1. */
  lemma {:induction false} FoldLinesLengthBound(lines: seq<string>, cl: int, chunked: bool)
    requires cl >= -1
    ensures FoldLines(lines, cl, chunked).0 >= -1
    decreases |lines|
  {
    if lines != [] {
      var t := HeaderLineUpdate(lines[0], cl, chunked);
      FoldLinesLengthBound(lines[1..], t.0, t.1);
    }
  }

  /** The last Content-Length line decides content_length; without one it is left as it was. */
  lemma FoldLinesLength(lines: seq<string>, cl: int, chunked: bool)
    ensures (forall i :: 0 <= i < |lines| ==> !IsHeader(lines[i], CONTENT_LENGTH_KEY)) ==>
              FoldLines(lines, cl, chunked).0 == cl
    ensures forall k :: 0 <= k < |lines| && IsHeader(lines[k], CONTENT_LENGTH_KEY)
                        && (forall j :: k < j < |lines| ==> !IsHeader(lines[j], CONTENT_LENGTH_KEY)) ==>
              FoldLines(lines, cl, chunked).0 == DeclaredLength(HeaderValue(lines[k]))
    ensures cl >= -1 ==> FoldLines(lines, cl, chunked).0 >= -1
  {
    if forall i :: 0 <= i < |lines| ==> !IsHeader(lines[i], CONTENT_LENGTH_KEY) {
      FoldLinesNoLength(lines, cl, chunked);
    }
    forall k | 0 <= k < |lines| && IsHeader(lines[k], CONTENT_LENGTH_KEY)
               && (forall j :: k < j < |lines| ==> !IsHeader(lines[j], CONTENT_LENGTH_KEY))
      ensures FoldLines(lines, cl, chunked).0 == DeclaredLength(HeaderValue(lines[k]))
    {
      FoldLinesLastLength(lines, cl, chunked, k);
    }
    if cl >= -1 {
      FoldLinesLengthBound(lines, cl, chunked);
    }
  }

  /** is_chunked ends up set iff it was set or some line is a chunked Transfer-Encoding; it is never cleared. */
  lemma {:induction false} FoldLinesChunked(lines: seq<string>, cl: int, chunked: bool)
    ensures FoldLines(lines, cl, chunked).1 <==> chunked || exists i :: 0 <= i < |lines| && ChunkedLine(lines[i])
    decreases |lines|
  {
    if lines != [] {
      var t := HeaderLineUpdate(lines[0], cl, chunked);
      var rest := lines[1..];
      FoldLinesChunked(rest, t.0, t.1);
      if exists i :: 0 <= i < |lines| && ChunkedLine(lines[i]) {
        var i :| 0 <= i < |lines| && ChunkedLine(lines[i]);
        if i > 0 {
          assert rest[i - 1] == lines[i];
        }
      }
      if exists i :: 0 <= i < |rest| && ChunkedLine(rest[i]) {
        var i :| 0 <= i < |rest| && ChunkedLine(rest[i]);
        assert lines[i + 1] == rest[i];
      }
    }
  }

  /** The lines the pos loop visits: from `pos`, each up to the next CRLF, while that lies within the header block. */
  function Lines(buf: string, pos: nat, headerEnd: nat): seq<string>
    decreases |buf| - pos
  {
    if pos >= headerEnd then []
    else
      match Find(buf, CRLF, pos)
      case None => []
      case Some(next) =>
        if next > headerEnd then [] else [buf[pos..next]] + Lines(buf, next + 2, headerEnd)
  }

  /** The lines put back together, CRLF between consecutive ones. */
  function Join(lines: seq<string>): string
    decreases |lines|
  {
    if |lines| == 0 then ""
    else if |lines| == 1 then lines[0]
    else lines[0] + CRLF + Join(lines[1..])
  }

  /** `headerEnd` is where the first blank line of the buffer starts. */
  predicate FirstTerminator(buf: string, headerEnd: nat) {
    MatchAt(buf, HEADER_TERMINATOR, headerEnd)
    && forall j :: 0 <= j < headerEnd ==> !MatchAt(buf, HEADER_TERMINATOR, j)
  }

  /** A CRLF inside the header block, other than the one at its end, is followed by more of the block. */
  lemma BreakBeforeEnd(buf: string, headerEnd: nat, next: nat)
    requires FirstTerminator(buf, headerEnd)
    requires MatchAt(buf, CRLF, next) && next < headerEnd
    ensures next + 2 < headerEnd
  {
    assert buf[headerEnd] == buf[headerEnd..headerEnd + 4][0] == '\r';
    assert buf[next + 1] == buf[next..next + 2][1] == '\n';
    assert buf[headerEnd..headerEnd + 2] == buf[headerEnd..headerEnd + 4][..2];
    CrlfPair(buf, next);
  }

  /** Two CRLFs in a row make the blank line. */
  lemma CrlfPair(buf: string, k: nat)
    ensures MatchAt(buf, CRLF, k) && MatchAt(buf, CRLF, k + 2) ==> MatchAt(buf, HEADER_TERMINATOR, k)
  {
    if k + 4 <= |buf| {
      assert buf[k..k + 4] == buf[k..k + 2] + buf[k + 2..k + 4];
    }
  }

  /** One step of the visited lines inside the header block: the next CRLF is the block's end or leaves room for more. */
  lemma LinesUnfold(buf: string, pos: nat, headerEnd: nat)
    requires pos < headerEnd && FirstTerminator(buf, headerEnd)
    ensures var next := Find(buf, CRLF, pos);
      next.Some? && next.value <= headerEnd && (next.value < headerEnd ==> next.value + 2 < headerEnd)
      && Lines(buf, pos, headerEnd) == [buf[pos..next.value]] + Lines(buf, next.value + 2, headerEnd)
  {
    assert buf[headerEnd..headerEnd + 2] == buf[headerEnd..headerEnd + 4][..2];
    assert MatchAt(buf, CRLF, headerEnd);
    var next := Find(buf, CRLF, pos);
    if next.value < headerEnd {
      BreakBeforeEnd(buf, headerEnd, next.value);
    }
  }

  lemma JoinCons(line: string, rest: seq<string>)
    requires rest != []
    ensures Join([line] + rest) == line + CRLF + Join(rest)
  {
    assert ([line] + rest)[1..] == rest;
  }

  lemma SliceAtBreak(buf: string, pos: nat, next: nat, end: nat)
    requires pos <= next && next + 2 <= end <= |buf| && MatchAt(buf, CRLF, next)
    ensures buf[pos..end] == buf[pos..next] + CRLF + buf[next + 2..end]
  {
    assert buf[pos..end] == buf[pos..next] + buf[next..next + 2] + buf[next + 2..end];
  }

  /** The visited lines are exactly the CRLF-separated pieces of the header block from `pos` on. */
  lemma {:induction false} LinesRebuildBlock(buf: string, pos: nat, headerEnd: nat)
    requires pos <= headerEnd && FirstTerminator(buf, headerEnd)
    ensures Join(Lines(buf, pos, headerEnd)) == buf[pos..headerEnd]
    decreases headerEnd - pos
  {
    if pos < headerEnd {
      LinesUnfold(buf, pos, headerEnd);
      var next := Find(buf, CRLF, pos).value;
      if next < headerEnd {
        LinesRebuildBlock(buf, next + 2, headerEnd);
        LinesUnfold(buf, next + 2, headerEnd);
        JoinCons(buf[pos..next], Lines(buf, next + 2, headerEnd));
        SliceAtBreak(buf, pos, next, headerEnd);
      } else {
        assert Lines(buf, next + 2, headerEnd) == [];
      }
    }
  }

  /** A piece that ends before the next CRLF from its start holds no CRLF. */
  lemma NoBreakBefore(buf: string, pos: nat, next: nat)
    requires pos <= next <= |buf|
    requires forall j :: pos <= j < next ==> !MatchAt(buf, CRLF, j)
    ensures !Occurs(CRLF, buf[pos..next])
  {
    var line := buf[pos..next];
    forall k | 0 <= k && k + 2 <= |line| ensures !MatchAt(line, CRLF, k) {
      assert !MatchAt(buf, CRLF, pos + k);
      assert line[k] == buf[pos + k] && line[k + 1] == buf[pos + k + 1];
      assert line[k..k + 2] == [line[k], line[k + 1]];
      assert buf[pos + k..pos + k + 2] == [buf[pos + k], buf[pos + k + 1]];
    }
  }

  /** No visited line contains a CRLF. */
  lemma {:induction false} LinesHaveNoBreak(buf: string, pos: nat, headerEnd: nat)
    ensures forall i :: 0 <= i < |Lines(buf, pos, headerEnd)| ==> !Occurs(CRLF, Lines(buf, pos, headerEnd)[i])
    decreases |buf| - pos
  {
    var ls := Lines(buf, pos, headerEnd);
    if ls != [] {
      var next := Find(buf, CRLF, pos).value;
      NoBreakBefore(buf, pos, next);
      LinesHaveNoBreak(buf, next + 2, headerEnd);
      var more := Lines(buf, next + 2, headerEnd);
      assert ls == [buf[pos..next]] + more;
      forall i | 0 <= i < |ls| ensures !Occurs(CRLF, ls[i]) {
        if i > 0 {
          assert ls[i] == more[i - 1];
        }
      }
    }
  }

  // ================================================================ parse_headers

  /** The request line's method and path: the text before the first space and between the first two, when both exist. */
  function RequestLineFields(line: string, cr: ClientRequest): ClientRequest {
    match Find(line, " ", 0)
    case None => cr
    case Some(sp1) =>
      match Find(line, " ", sp1 + 1)
      case None => cr
      case Some(sp2) => cr.(methodName := line[..sp1], requestPath := line[sp1 + 1..sp2])
  }

  lemma SpaceAt(s: string, k: int)
    ensures MatchAt(s, " ", k) <==> 0 <= k < |s| && s[k] == ' '
  {
    if 0 <= k < |s| {
      assert s[k..k + 1] == [s[k]];
    }
  }

  /** The space find(' ', from) returns, with none before it. */
  lemma FoundSpace(line: string, from: nat)
    requires Find(line, " ", from).Some?
    ensures var p := Find(line, " ", from).value;
      from <= p < |line| && line[p] == ' ' && forall k :: from <= k < p ==> line[k] != ' '
  {
    var p := Find(line, " ", from).value;
    SpaceAt(line, p);
    forall k | from <= k < p ensures line[k] != ' ' {
      SpaceAt(line, k);
    }
  }

  /** A space at or after `from` is found, no later than it. */
  lemma SpaceFound(line: string, from: nat, k: nat)
    requires from <= k < |line| && line[k] == ' '
    ensures Find(line, " ", from).Some? && Find(line, " ", from).value <= k
  {
    SpaceAt(line, k);
  }

  /** The line has at least two spaces. */
  predicate TwoSpaces(line: string) {
    exists i, j :: 0 <= i < j < |line| && line[i] == ' ' && line[j] == ' '
  }

  /** With two spaces, method and path are the space-free fields before them; nothing else changes. */
  lemma RequestLineSplit(line: string, cr: ClientRequest)
    requires TwoSpaces(line)
    ensures var r := RequestLineFields(line, cr);
      r.(methodName := cr.methodName, requestPath := cr.requestPath) == cr
      && ' ' !in r.methodName && ' ' !in r.requestPath
      && r.methodName + " " + r.requestPath + " " <= line
  {
    var sp1, sp2 := TwoSpacesFound(line);
    FieldsPrefix(line, sp1, sp2);
  }

  /** find(' ', from) with a space at k: it finds the first space from `from`, no later than k. */
  lemma FirstSpace(line: string, from: nat, k: nat) returns (p: nat)
    requires from <= k < |line| && line[k] == ' '
    ensures Find(line, " ", from) == Some(p) && from <= p <= k && line[p] == ' '
    ensures ' ' !in line[from..p]
  {
    SpaceFound(line, from, k);
    FoundSpace(line, from);
    p := Find(line, " ", from).value;
    forall c | c in line[from..p] ensures c != ' ' {
      var i :| 0 <= i < p - from && line[from..p][i] == c;
      assert c == line[from + i];
    }
  }

  /** With two spaces both finds succeed; the fields between them hold no space. */
  lemma TwoSpacesFound(line: string) returns (sp1: nat, sp2: nat)
    requires TwoSpaces(line)
    ensures Find(line, " ", 0) == Some(sp1) && Find(line, " ", sp1 + 1) == Some(sp2)
    ensures sp1 < sp2 < |line| && line[sp1] == ' ' && line[sp2] == ' '
    ensures ' ' !in line[..sp1] && ' ' !in line[sp1 + 1..sp2]
  {
    var i, j :| 0 <= i < j < |line| && line[i] == ' ' && line[j] == ' ';
    sp1 := FirstSpace(line, 0, i);
    sp2 := FirstSpace(line, sp1 + 1, j);
    assert line[..sp1] == line[0..sp1];
  }

  lemma FieldsPrefix(line: string, sp1: nat, sp2: nat)
    requires sp1 < sp2 < |line| && line[sp1] == ' ' && line[sp2] == ' '
    ensures line[..sp1] + " " + line[sp1 + 1..sp2] + " " <= line
  {
    assert line[..sp2 + 1] == line[..sp1] + " " + line[sp1 + 1..sp2] + " ";
  }

  /** With fewer than two spaces the request line changes nothing. */
  lemma RequestLineUnsplit(line: string, cr: ClientRequest)
    requires !TwoSpaces(line)
    ensures RequestLineFields(line, cr) == cr
  {
    var f1 := Find(line, " ", 0);
    if f1.Some? {
      FoundSpace(line, 0);
      var f2 := Find(line, " ", f1.value + 1);
      if f2.Some? {
        FoundSpace(line, f1.value + 1);
        assert false;
      }
    }
  }

  /** The header lines parse_headers visits: those after the request line, up to the blank line. */
  function HeaderLines(buf: string): seq<string> {
    match Find(buf, HEADER_TERMINATOR, 0)
    case None => []
    case Some(he) =>
      match Find(buf, CRLF, 0)
      case None => []
      case Some(le) => Lines(buf, le + 2, he)
  }

  /**
   * What parse_headers sets once the blank line (at `he`) and the first CRLF (at `le`) are found:
   * header_end and body_start, the request line's method and path, then content_length and
   * is_chunked from the header lines.
   */
  function HeaderFields(cr: ClientRequest, he: nat, le: nat): ClientRequest
    requires le <= |cr.buffer|
  {
    var c1 := cr.(headerEnd := Some(he), bodyStart := he + 4);
    var c2 := RequestLineFields(cr.buffer[..le], c1);
    var t := FoldLines(Lines(cr.buffer, le + 2, he), -1, c2.isChunked);
    c2.(contentLength := t.0, isChunked := t.1)
  }

  /** max_size from the best location for the path, else from the server; the headers then count as parsed. */
  function WithLimit(c: ClientRequest, s: ServerSettings): ClientRequest {
    var loc := MatchedLocation(c.requestPath, s.locations);
    c.(maxSize := if loc.Some? then loc.value.maxBodySize else s.maxBodySize, headersParsed := true)
  }

  /**
   * parse_headers: false while the blank line is missing. Otherwise body_start lies past it, the
   * request line and the header lines are read, and with a known server max_size is set and the
   * headers count as parsed. `server` is None when the client is not mapped to a listening
   * socket; header_end, body_start, method, path, content_length and is_chunked are still
   * updated then.
   */
  function ParseHeaders(cr: ClientRequest, server: Option<ServerSettings>): (bool, ClientRequest) {
    match Find(cr.buffer, HEADER_TERMINATOR, 0)
    case None => (false, cr.(headerEnd := None))
    case Some(he) =>
      match Find(cr.buffer, CRLF, 0)
      case None => (false, cr.(headerEnd := Some(he), bodyStart := he + 4))
      case Some(le) =>
        var c := HeaderFields(cr, he, le);
        if server.None? then (false, c) else (true, WithLimit(c, server.value))
  }

  /** Only method and path come from the request line; content_length and is_chunked only from the header lines. */
  lemma HeaderFieldsShape(cr: ClientRequest, he: nat, le: nat)
    requires le <= |cr.buffer|
    ensures var r := HeaderFields(cr, he, le);
      var c2 := RequestLineFields(cr.buffer[..le], cr.(headerEnd := Some(he), bodyStart := he + 4));
      var t := FoldLines(Lines(cr.buffer, le + 2, he), -1, cr.isChunked);
      r == cr.(headerEnd := Some(he), bodyStart := he + 4, methodName := c2.methodName,
               requestPath := c2.requestPath, contentLength := t.0, isChunked := t.1)
  {
    var line := cr.buffer[..le];
    var c1 := cr.(headerEnd := Some(he), bodyStart := he + 4);
    if TwoSpaces(line) {
      RequestLineSplit(line, c1);
    } else {
      RequestLineUnsplit(line, c1);
    }
  }

  /** Without the blank line nothing but header_end changes and the answer is false. */
  lemma ParseHeadersWaits(cr: ClientRequest, server: Option<ServerSettings>)
    ensures !Occurs(HEADER_TERMINATOR, cr.buffer) ==> ParseHeaders(cr, server) == (false, cr.(headerEnd := None))
    ensures ParseHeaders(cr, server).0 ==> Occurs(HEADER_TERMINATOR, cr.buffer) && server.Some?
  {
    FindNoneIffAbsent(cr.buffer, HEADER_TERMINATOR);
  }

  /** The blank line lies in the buffer, and the first line ends no later than it. */
  lemma TerminatorFound(buf: string)
    requires Occurs(HEADER_TERMINATOR, buf)
    ensures Find(buf, HEADER_TERMINATOR, 0).Some? && Find(buf, CRLF, 0).Some?
    ensures FirstTerminator(buf, Find(buf, HEADER_TERMINATOR, 0).value)
    ensures Find(buf, CRLF, 0).value <= Find(buf, HEADER_TERMINATOR, 0).value
  {
    FindNoneIffAbsent(buf, HEADER_TERMINATOR);
    var he := Find(buf, HEADER_TERMINATOR, 0).value;
    assert buf[he..he + 2] == buf[he..he + 4][..2];
    assert MatchAt(buf, CRLF, he);
  }

  /** The blank line at `he`, the first CRLF at `le`: what parse_headers returns. */
  lemma ParseHeadersAt(cr: ClientRequest, server: Option<ServerSettings>, he: nat, le: nat)
    requires Find(cr.buffer, HEADER_TERMINATOR, 0) == Some(he) && Find(cr.buffer, CRLF, 0) == Some(le)
    ensures le + 2 <= |cr.buffer|
    ensures ParseHeaders(cr, server) ==
      if server.None? then (false, HeaderFields(cr, he, le)) else (true, WithLimit(HeaderFields(cr, he, le), server.value))
  {
  }

  /** Once the blank line is in the buffer and the server is known, the headers are parsed and the body starts after the blank line. */
  lemma ParseHeadersDone(cr: ClientRequest, s: ServerSettings)
    requires Occurs(HEADER_TERMINATOR, cr.buffer)
    ensures var r := ParseHeaders(cr, Some(s)); var he := r.1.headerEnd;
      r.0 && r.1.headersParsed && he.Some? && FirstTerminator(cr.buffer, he.value)
      && r.1.bodyStart == he.value + 4
      && r.1.buffer == cr.buffer && r.1.currentSize == cr.currentSize
  {
    TerminatorFound(cr.buffer);
    var he := Find(cr.buffer, HEADER_TERMINATOR, 0).value;
    var le := Find(cr.buffer, CRLF, 0).value;
    ParseHeadersAt(cr, Some(s), he, le);
    HeaderFieldsShape(cr, he, le);
  }

  /** content_length: -1 without a Content-Length line, otherwise what the last one declares. */
  lemma ParseHeadersLength(cr: ClientRequest, server: Option<ServerSettings>)
    requires Occurs(HEADER_TERMINATOR, cr.buffer)
    ensures var r := ParseHeaders(cr, server).1; var hl := HeaderLines(cr.buffer);
      r.contentLength >= -1
      && ((forall i :: 0 <= i < |hl| ==> !IsHeader(hl[i], CONTENT_LENGTH_KEY)) ==> r.contentLength == -1)
      && (forall k :: 0 <= k < |hl| && IsHeader(hl[k], CONTENT_LENGTH_KEY)
                      && (forall j :: k < j < |hl| ==> !IsHeader(hl[j], CONTENT_LENGTH_KEY)) ==>
            r.contentLength == DeclaredLength(HeaderValue(hl[k])))
  {
    TerminatorFound(cr.buffer);
    var he := Find(cr.buffer, HEADER_TERMINATOR, 0).value;
    var le := Find(cr.buffer, CRLF, 0).value;
    ParseHeadersAt(cr, server, he, le);
    HeaderFieldsShape(cr, he, le);
    FoldLinesLength(HeaderLines(cr.buffer), -1, cr.isChunked);
  }

  /** is_chunked: set iff it already was or some header line is a chunked Transfer-Encoding. */
  lemma ParseHeadersChunked(cr: ClientRequest, server: Option<ServerSettings>)
    requires Occurs(HEADER_TERMINATOR, cr.buffer)
    ensures var r := ParseHeaders(cr, server).1; var hl := HeaderLines(cr.buffer);
      r.isChunked <==> cr.isChunked || exists i :: 0 <= i < |hl| && ChunkedLine(hl[i])
  {
    TerminatorFound(cr.buffer);
    var he := Find(cr.buffer, HEADER_TERMINATOR, 0).value;
    var le := Find(cr.buffer, CRLF, 0).value;
    ParseHeadersAt(cr, server, he, le);
    HeaderFieldsShape(cr, he, le);
    FoldLinesChunked(HeaderLines(cr.buffer), -1, cr.isChunked);
  }

  /** max_size: the limit of the best location for the request path, else the server's. */
  lemma ParseHeadersLimit(cr: ClientRequest, s: ServerSettings)
    requires Occurs(HEADER_TERMINATOR, cr.buffer)
    ensures var r := ParseHeaders(cr, Some(s)).1; var best := BestLocation(r.requestPath, s.locations);
      (best.Some? ==> r.maxSize == s.locations[best.value].maxBodySize)
      && (best.None? ==> r.maxSize == s.maxBodySize)
  {
    TerminatorFound(cr.buffer);
    var he := Find(cr.buffer, HEADER_TERMINATOR, 0).value;
    var le := Find(cr.buffer, CRLF, 0).value;
    ParseHeadersAt(cr, Some(s), he, le);
  }

  /** The request line is the text before the first CRLF; with two spaces it sets method and path. */
  lemma ParseHeadersRequestLine(cr: ClientRequest, server: Option<ServerSettings>, le: nat)
    requires Occurs(HEADER_TERMINATOR, cr.buffer) && Find(cr.buffer, CRLF, 0) == Some(le)
    ensures var r := ParseHeaders(cr, server).1; var line := cr.buffer[..le];
      !Occurs(CRLF, line)
      && (TwoSpaces(line) ==> ' ' !in r.methodName && ' ' !in r.requestPath
                              && r.methodName + " " + r.requestPath + " " <= line)
      && (!TwoSpaces(line) ==> r.methodName == cr.methodName && r.requestPath == cr.requestPath)
  {
    TerminatorFound(cr.buffer);
    var he := Find(cr.buffer, HEADER_TERMINATOR, 0).value;
    ParseHeadersAt(cr, server, he, le);
    HeaderFieldsShape(cr, he, le);
    var line := cr.buffer[..le];
    var c1 := cr.(headerEnd := Some(he), bodyStart := he + 4);
    if TwoSpaces(line) {
      RequestLineSplit(line, c1);
    } else {
      RequestLineUnsplit(line, c1);
    }
    NoBreakBefore(cr.buffer, 0, le);
    assert cr.buffer[0..le] == line;
  }

  /** The header block after the request line is the visited lines joined by CRLF, none holding a CRLF. */
  lemma ParseHeadersLines(cr: ClientRequest, he: nat, le: nat)
    requires Find(cr.buffer, HEADER_TERMINATOR, 0) == Some(he) && Find(cr.buffer, CRLF, 0) == Some(le)
    ensures var hl := HeaderLines(cr.buffer);
      (forall i :: 0 <= i < |hl| ==> !Occurs(CRLF, hl[i]))
      && (le == he ==> hl == [])
      && (le < he ==> le + 2 < he && Join(hl) == cr.buffer[le + 2..he])
  {
    assert MatchAt(cr.buffer, HEADER_TERMINATOR, he);
    TerminatorFound(cr.buffer);
    LinesHaveNoBreak(cr.buffer, le + 2, he);
    if le < he {
      BreakBeforeEnd(cr.buffer, he, le);
      LinesRebuildBlock(cr.buffer, le + 2, he);
    }
  }

  /** parse_headers changes neither the buffer nor the byte count, and a false answer leaves headers_parsed alone. */
  lemma ParseHeadersKeepsBuffer(cr: ClientRequest, server: Option<ServerSettings>)
    ensures ParseHeaders(cr, server).1.buffer == cr.buffer
    ensures ParseHeaders(cr, server).1.currentSize == cr.currentSize
    ensures !ParseHeaders(cr, server).0 ==> ParseHeaders(cr, server).1.headersParsed == cr.headersParsed
  {
    var fh := Find(cr.buffer, HEADER_TERMINATOR, 0);
    var fl := Find(cr.buffer, CRLF, 0);
    if fh.Some? && fl.Some? {
      ParseHeadersAt(cr, server, fh.value, fl.value);
      HeaderFieldsShape(cr, fh.value, fl.value);
    }
  }

  /** The request-line part of parse_headers. */
  method ReadRequestLine(line: string, cr: ClientRequest) returns (r: ClientRequest)
    ensures r == RequestLineFields(line, cr)
  {
    r := cr;
    var sp1 := Find(line, " ", 0);
    var sp2 := if sp1.None? then None else Find(line, " ", sp1.value + 1);
    if sp1.Some? && sp2.Some? {
      r := r.(methodName := line[..sp1.value], requestPath := line[sp1.value + 1..sp2.value]);
    }
  }

  /** The body of the header loop for one line. */
  method ReadHeaderLine(line: string, cl: int, chunked: bool) returns (cl': int, chunked': bool)
    ensures (cl', chunked') == HeaderLineUpdate(line, cl, chunked)
  {
    cl', chunked' := cl, chunked;
    var colon := Find(line, ":", 0);
    if colon.Some? {
      var key := Strip(line[..colon.value], ' ');
      var val := Strip(line[colon.value + 1..], ' ');
      if CiEqual(key, CONTENT_LENGTH_KEY) {
        var n := Strtol(val);
        cl' := if n < 0 then -1 else n;
      }
      if CiEqual(key, TRANSFER_ENCODING_KEY) {
        var lower := ToLower(val);
        if InStr(CHUNKED, lower) {
          chunked' := true;
        }
      }
    }
  }

  /** The visited lines from `pos`, when the next CRLF lies within the block. */
  lemma LinesStep(buf: string, pos: nat, he: nat, next: nat)
    requires pos < he && Find(buf, CRLF, pos) == Some(next) && next <= he
    ensures Lines(buf, pos, he) == [buf[pos..next]] + Lines(buf, next + 2, he)
    ensures (Lines(buf, pos, he))[1..] == Lines(buf, next + 2, he) && Lines(buf, pos, he)[0] == buf[pos..next]
  {
  }

  lemma FoldLinesCons(lines: seq<string>, cl: int, chunked: bool)
    requires lines != []
    ensures FoldLines(lines, cl, chunked) ==
      FoldLines(lines[1..], HeaderLineUpdate(lines[0], cl, chunked).0, HeaderLineUpdate(lines[0], cl, chunked).1)
  {
  }

  /** One iteration of the pos loop folds the line it reads. */
  lemma LinesFoldStep(buf: string, pos: nat, he: nat, next: nat, cl: int, chunked: bool)
    requires pos < he && Find(buf, CRLF, pos) == Some(next) && next <= he
    ensures var t := HeaderLineUpdate(buf[pos..next], cl, chunked);
      FoldLines(Lines(buf, pos, he), cl, chunked) == FoldLines(Lines(buf, next + 2, he), t.0, t.1)
  {
    LinesStep(buf, pos, he, next);
    FoldLinesCons(Lines(buf, pos, he), cl, chunked);
  }

  /** The pos loop stops where the visited lines end. */
  lemma LinesStop(buf: string, pos: nat, he: nat)
    requires pos >= he || Find(buf, CRLF, pos).None? || Find(buf, CRLF, pos).value > he
    ensures Lines(buf, pos, he) == []
  {
  }

  /** The pos loop of parse_headers. */
  method ReadHeaderLines(buf: string, start: nat, he: nat, chunked: bool) returns (cl: int, ch: bool)
    ensures (cl, ch) == FoldLines(Lines(buf, start, he), -1, chunked)
  {
    cl, ch := -1, chunked;
    var pos := start;
    while pos < he
      invariant FoldLines(Lines(buf, pos, he), cl, ch) == FoldLines(Lines(buf, start, he), -1, chunked)
      decreases |buf| - pos
    {
      var next := Find(buf, CRLF, pos);
      if next.None? || next.value > he {
        LinesStop(buf, pos, he);
        break;
      }
      var line := buf[pos..next.value];
      LinesFoldStep(buf, pos, he, next.value, cl, ch);
      cl, ch := ReadHeaderLine(line, cl, ch);
      pos := next.value + 2;
    }
  }

  /** The fields parse_headers sets once it has found the blank line and the request line. */
  method ReadHeaderFields(cr: ClientRequest, he: nat, le: nat) returns (r: ClientRequest)
    requires le <= |cr.buffer|
    ensures r == HeaderFields(cr, he, le)
  {
    r := cr.(headerEnd := Some(he), bodyStart := he + 4);
    r := ReadRequestLine(cr.buffer[..le], r);
    var cl, ch := ReadHeaderLines(cr.buffer, le + 2, he, r.isChunked);
    r := r.(contentLength := cl, isChunked := ch);
  }

  /** The max_size part of parse_headers. */
  method ApplyLimit(c: ClientRequest, s: ServerSettings) returns (r: ClientRequest)
    ensures r == WithLimit(c, s)
  {
    var best := FindBestLocation(c.requestPath, s.locations);
    if best.Some? {
      r := c.(maxSize := s.locations[best.value].maxBodySize);
    } else {
      r := c.(maxSize := s.maxBodySize);
    }
    r := r.(headersParsed := true);
  }

  /** parse_headers. */
  method ParseRequestHeaders(cr: ClientRequest, server: Option<ServerSettings>) returns (ok: bool, r: ClientRequest)
    ensures (ok, r) == ParseHeaders(cr, server)
  {
    var headerEnd := Find(cr.buffer, HEADER_TERMINATOR, 0);
    if headerEnd.None? {
      return false, cr.(headerEnd := None);
    }
    var he := headerEnd.value;
    var lineEnd := Find(cr.buffer, CRLF, 0);
    if lineEnd.None? {
      return false, cr.(headerEnd := Some(he), bodyStart := he + 4);
    }
    r := ReadHeaderFields(cr, he, lineEnd.value);
    if server.None? {
      return false, r;
    }
    r := ApplyLimit(r, server.value);
    ok := true;
  }

  // ================================================================ size and completeness

  /** The request is complete: headers parsed, and no body declared or all of it received. */
  predicate Complete(cr: ClientRequest) {
    cr.headersParsed && (cr.contentLength < 0 || BodyBytes(cr) >= cr.contentLength)
  }

  /** A positive limit below the declared Content-Length. */
  predicate DeclaredTooLarge(cr: ClientRequest) {
    cr.maxSize > 0 && cr.contentLength >= 0 && cr.contentLength > cr.maxSize
  }

  /** A positive limit below the body bytes received so far. */
  predicate BodyTooLarge(cr: ClientRequest) {
    cr.maxSize > 0 && BodyBytes(cr) > cr.maxSize
  }

  /** Where one received chunk leaves the request. */
  datatype Progress = Pending(cr: ClientRequest) | TooLarge(cr: ClientRequest) | Ready(cr: ClientRequest)

  /** The checks _handle_read makes once the headers are parsed: the body limit, then completeness. */
  function BodyVerdict(cr: ClientRequest): Progress {
    if BodyTooLarge(cr) then TooLarge(cr)
    else if Complete(cr) then Ready(cr)
    else Pending(cr)
  }

  /** One pass of _handle_read's recv loop: append, parse the headers once, then judge size and completeness. */
  function AfterChunk(cr: ClientRequest, chunk: string, server: Option<ServerSettings>): Progress {
    var c := AppendToBuffer(cr, chunk);
    if !c.headersParsed then
      var p := ParseHeaders(c, server);
      if !p.0 then Pending(p.1)
      else if DeclaredTooLarge(p.1) then TooLarge(p.1)
      else BodyVerdict(p.1)
    else BodyVerdict(c)
  }

  /** One chunk: what it leaves pending is incomplete, what it answers 413 exceeds the limit, and what it readies is complete. */
  lemma AfterChunkSpec(cr: ClientRequest, chunk: string, server: Option<ServerSettings>)
    ensures var p := AfterChunk(cr, chunk, server);
      p.cr.buffer == cr.buffer + chunk && p.cr.currentSize == cr.currentSize + |chunk|
      && (p.Ready? ==> Complete(p.cr) && !BodyTooLarge(p.cr) && !DeclaredTooLarge(p.cr))
      && (p.TooLarge? ==> p.cr.headersParsed && (DeclaredTooLarge(p.cr) || BodyTooLarge(p.cr)))
      && (p.Pending? && p.cr.headersParsed ==> !Complete(p.cr) && !BodyTooLarge(p.cr))
  {
    var c := AppendToBuffer(cr, chunk);
    ParseHeadersKeepsBuffer(c, server);
    if c.headersParsed {
      assert cr.headersParsed;
    }
  }

  /** Whatever the verdict, the chunk has been appended. */
  lemma AfterChunkAppends(cr: ClientRequest, chunk: string, server: Option<ServerSettings>)
    ensures AfterChunk(cr, chunk, server).cr.buffer == cr.buffer + chunk
    ensures AfterChunk(cr, chunk, server).cr.currentSize == cr.currentSize + |chunk|
  {
    var c := AppendToBuffer(cr, chunk);
    if !c.headersParsed {
      ParseHeadersKeepsBuffer(c, server);
      var p := ParseHeaders(c, server);
      BodyVerdictKeeps(p.1);
      assert AfterChunk(cr, chunk, server).cr == p.1;
    } else {
      BodyVerdictKeeps(c);
    }
  }

  lemma BodyVerdictKeeps(c: ClientRequest)
    ensures BodyVerdict(c).cr == c
  {
  }

  /** The body of _handle_read's recv loop for the chunk just received. */
  method ReceiveChunk(cr: ClientRequest, chunk: string, server: Option<ServerSettings>) returns (p: Progress)
    ensures p == AfterChunk(cr, chunk, server)
  {
    var c := AppendToBuffer(cr, chunk);
    if !c.headersParsed {
      var ok;
      ok, c := ParseRequestHeaders(c, server);
      if !ok {
        return Pending(c);
      }
      if DeclaredTooLarge(c) {
        return TooLarge(c);
      }
    }
    if BodyTooLarge(c) {
      return TooLarge(c);
    }
    if Complete(c) {
      return Ready(c);
    }
    return Pending(c);
  }

  /** recv's results: bytes (a count above zero), the peer closing (zero), no data for now (EAGAIN), an error. */
  datatype RecvResult = Data(bytes: string) | Closed | WouldBlock | Failed

  /** recv returned a positive count. A Data result with no bytes stands for a return of 0. */
  predicate Received(r: RecvResult) {
    r.Data? && |r.bytes| > 0
  }

  /** How a read pass ends: 413, complete, or the first recv result that is not data. */
  datatype Stop = StopTooLarge | StopReady | StopRecv(last: RecvResult)

  /** The request, why the pass stopped, and how many recv results it consumed. */
  datatype LoopEnd = LoopEnd(cr: ClientRequest, stop: Stop, used: nat)

  /** A way of taking in one received chunk. */
  type Step = (ClientRequest, string) -> Progress

  /**
   * The recv loop of _handle_read on a stream of results, for a given chunk step. An exhausted
   * stream reads as EAGAIN; an empty Data result as the peer closing.
   */
  function Loop(step: Step, cr: ClientRequest, input: seq<RecvResult>): (e: LoopEnd)
    decreases |input|
    ensures e.used <= |input|
  {
    if input == [] then LoopEnd(cr, StopRecv(WouldBlock), 0)
    else if Received(input[0]) then
      match step(cr, input[0].bytes)
      case Pending(c) =>
        var e := Loop(step, c, input[1..]);
        e.(used := e.used + 1)
      case TooLarge(c) => LoopEnd(c, StopTooLarge, 1)
      case Ready(c) => LoopEnd(c, StopReady, 1)
    else LoopEnd(cr, StopRecv(if input[0].Data? then Closed else input[0]), 1)
  }

  /** The chunk step of _handle_read. */
  function ChunkStep(server: Option<ServerSettings>): Step {
    (c: ClientRequest, chunk: string) => AfterChunk(c, chunk, server)
  }

  /** The recv loop of _handle_read. */
  function ReadLoop(cr: ClientRequest, input: seq<RecvResult>, server: Option<ServerSettings>): (e: LoopEnd)
    ensures e.used <= |input|
  {
    Loop(ChunkStep(server), cr, input)
  }

  /** ReadLoop on the stream from position i, unfolded once. */
  lemma ReadLoopAt(cr: ClientRequest, input: seq<RecvResult>, i: nat, server: Option<ServerSettings>)
    requires i <= |input|
    ensures i == |input| ==> ReadLoop(cr, input[i..], server) == LoopEnd(cr, StopRecv(WouldBlock), 0)
    ensures i < |input| && !Received(input[i]) ==>
      ReadLoop(cr, input[i..], server) == LoopEnd(cr, StopRecv(if input[i].Data? then Closed else input[i]), 1)
    ensures i < |input| && Received(input[i]) ==>
      ReadLoop(cr, input[i..], server) ==
        match AfterChunk(cr, input[i].bytes, server)
        case Pending(c) => ReadLoop(c, input[i + 1..], server).(used := ReadLoop(c, input[i + 1..], server).used + 1)
        case TooLarge(c) => LoopEnd(c, StopTooLarge, 1)
        case Ready(c) => LoopEnd(c, StopReady, 1)
  {
    if i < |input| {
      assert input[i..][0] == input[i];
      assert input[i..][1..] == input[i + 1..];
    }
  }

  /** The recv loop of _handle_read: results are consumed until one ends the pass. */
  method RecvLoop(cr: ClientRequest, input: seq<RecvResult>, server: Option<ServerSettings>) returns (e: LoopEnd)
    ensures e == ReadLoop(cr, input, server)
  {
    ghost var e0 := ReadLoop(cr, input, server);
    var c := cr;
    var i := 0;
    while i < |input| && Received(input[i])
      invariant 0 <= i <= |input|
      invariant ReadLoop(c, input[i..], server).(used := e0.used) == e0
      invariant ReadLoop(c, input[i..], server).used + i == e0.used
    {
      ReadLoopAt(c, input, i, server);
      var p := ReceiveChunk(c, input[i].bytes, server);
      match p
      case TooLarge(d) =>
        return LoopEnd(d, StopTooLarge, i + 1);
      case Ready(d) =>
        return LoopEnd(d, StopReady, i + 1);
      case Pending(d) =>
        c := d;
        i := i + 1;
    }
    ReadLoopAt(c, input, i, server);
    if i == |input| {
      return LoopEnd(c, StopRecv(WouldBlock), i);
    }
    return LoopEnd(c, StopRecv(if input[i].Data? then Closed else input[i]), i + 1);
  }

  /** How many results lead the stream before the first one that is not data. */
  function DataCount(input: seq<RecvResult>): (n: nat)
    ensures n <= |input|
  {
    if input == [] || !Received(input[0]) then 0 else 1 + DataCount(input[1..])
  }

  /** The bytes of the leading data results, in order. */
  function DataBytes(input: seq<RecvResult>): string {
    if input == [] || !Received(input[0]) then "" else input[0].bytes + DataBytes(input[1..])
  }

  lemma DataBytesCons(x: RecvResult, rest: seq<RecvResult>)
    requires Received(x)
    ensures DataBytes([x] + rest) == x.bytes + DataBytes(rest)
    ensures DataCount([x] + rest) == 1 + DataCount(rest)
  {
    assert ([x] + rest)[1..] == rest;
  }

  lemma DataBytesPrefix(x: RecvResult, rest: seq<RecvResult>, k: nat)
    requires Received(x) && k <= |rest|
    ensures DataBytes(([x] + rest)[..k + 1]) == x.bytes + DataBytes(rest[..k])
  {
    assert ([x] + rest)[..k + 1] == [x] + rest[..k];
    DataBytesCons(x, rest[..k]);
  }

  /** Every chunk the step takes in is appended, and current_size grows by its length. */
  ghost predicate Appends(step: Step) {
    forall c: ClientRequest, chunk: string {:trigger step(c, chunk)} ::
      step(c, chunk).cr.buffer == c.buffer + chunk && step(c, chunk).cr.currentSize == c.currentSize + |chunk|
  }

  /** The step answers 413 only over a limit and readies only a complete request. */
  ghost predicate Judges(step: Step) {
    forall c: ClientRequest, chunk: string {:trigger step(c, chunk)} ::
      var p := step(c, chunk);
      (p.Ready? ==> Complete(p.cr) && !BodyTooLarge(p.cr))
      && (p.TooLarge? ==> p.cr.headersParsed && (DeclaredTooLarge(p.cr) || BodyTooLarge(p.cr)))
  }

  lemma ChunkStepAppends(server: Option<ServerSettings>)
    ensures Appends(ChunkStep(server))
  {
    forall c: ClientRequest, chunk: string ensures
      AfterChunk(c, chunk, server).cr.buffer == c.buffer + chunk
      && AfterChunk(c, chunk, server).cr.currentSize == c.currentSize + |chunk|
    {
      AfterChunkAppends(c, chunk, server);
    }
  }

  lemma ChunkStepJudges(server: Option<ServerSettings>)
    ensures Judges(ChunkStep(server))
  {
    forall c: ClientRequest, chunk: string {
      AfterChunkSpec(c, chunk, server);
    }
  }

  /** A pass appends exactly the bytes of the data it consumed, in order. */
  lemma {:induction false} LoopBuffer(step: Step, cr: ClientRequest, input: seq<RecvResult>)
    requires Appends(step)
    ensures var e := Loop(step, cr, input);
      e.cr.buffer == cr.buffer + DataBytes(input[..e.used])
    decreases |input|
  {
    var e := Loop(step, cr, input);
    if input == [] {
      assert input[..0] == [];
    } else if !Received(input[0]) {
      assert input[..e.used] == [input[0]];
    } else {
      var x := input[0];
      var rest := input[1..];
      assert [x] + rest == input;
      var p := step(cr, x.bytes);
      if p.Pending? {
        LoopBuffer(step, p.cr, rest);
        DataBytesPrefix(x, rest, Loop(step, p.cr, rest).used);
      } else {
        DataBytesPrefix(x, rest, 0);
        assert rest[..0] == [];
      }
    }
  }

  /** A pass keeps current_size equal to the buffer's length. */
  lemma {:induction false} LoopKeepsConsistent(step: Step, cr: ClientRequest, input: seq<RecvResult>)
    requires Appends(step) && Consistent(cr)
    ensures Consistent(Loop(step, cr, input).cr)
    decreases |input|
  {
    if input != [] && Received(input[0]) {
      var p := step(cr, input[0].bytes);
      if p.Pending? {
        LoopKeepsConsistent(step, p.cr, input[1..]);
      }
    }
  }

  /** A pass stops with 413 only over a limit, as complete only on a complete request, and otherwise at a result that is not data. */
  lemma {:induction false} LoopStops(step: Step, cr: ClientRequest, input: seq<RecvResult>)
    requires Judges(step)
    ensures var e := Loop(step, cr, input);
      (e.stop == StopReady ==> Complete(e.cr) && !BodyTooLarge(e.cr))
      && (e.stop == StopTooLarge ==> e.cr.headersParsed && (DeclaredTooLarge(e.cr) || BodyTooLarge(e.cr)))
      && (e.stop.StopRecv? ==> !Received(e.stop.last))
    decreases |input|
  {
    if input != [] && Received(input[0]) {
      var p := step(cr, input[0].bytes);
      if p.Pending? {
        LoopStops(step, p.cr, input[1..]);
      }
    }
  }

  /** A read pass appends exactly the bytes of the data it consumed, in order. */
  lemma ReadLoopBuffer(cr: ClientRequest, input: seq<RecvResult>, server: Option<ServerSettings>)
    ensures var e := ReadLoop(cr, input, server);
      e.cr.buffer == cr.buffer + DataBytes(input[..e.used])
  {
    ChunkStepAppends(server);
    LoopBuffer(ChunkStep(server), cr, input);
  }

  /** A read pass keeps current_size equal to the buffer's length. */
  lemma ReadLoopKeepsConsistent(cr: ClientRequest, input: seq<RecvResult>, server: Option<ServerSettings>)
    requires Consistent(cr)
    ensures Consistent(ReadLoop(cr, input, server).cr)
  {
    ChunkStepAppends(server);
    LoopKeepsConsistent(ChunkStep(server), cr, input);
  }

  /** A read pass stops with 413 only over a limit, as complete only on a complete request, and otherwise at a result that is not data. */
  lemma ReadLoopStops(cr: ClientRequest, input: seq<RecvResult>, server: Option<ServerSettings>)
    ensures var e := ReadLoop(cr, input, server);
      (e.stop == StopReady ==> Complete(e.cr) && !BodyTooLarge(e.cr))
      && (e.stop == StopTooLarge ==> e.cr.headersParsed && (DeclaredTooLarge(e.cr) || BodyTooLarge(e.cr)))
      && (e.stop.StopRecv? ==> !Received(e.stop.last))
  {
    ChunkStepJudges(server);
    LoopStops(ChunkStep(server), cr, input);
  }

  // ================================================================ buffer_has_final_chunk

  const FINAL_CHUNK: string := "\r\n0\r\n"
  const LAST_CHUNK_LINE: string := "0\r\n"

  /** buffer_has_final_chunk: "\r\n0\r\n" occurs, or the buffer ends with "0\r\n". */
  function HasFinalChunk(b: string): (r: bool)
    ensures r <==> Occurs(FINAL_CHUNK, b) || (|b| >= 3 && b[|b| - 3..] == LAST_CHUNK_LINE)
  {
    InStr(FINAL_CHUNK, b) || (|b| >= 3 && b[|b| - 3..] == LAST_CHUNK_LINE)
  }

  /** A terminating chunk after a CRLF stays seen however much follows it. */
  lemma FinalChunkSurvivesAppend(a: string, b: string)
    requires Occurs(FINAL_CHUNK, a)
    ensures HasFinalChunk(a + b)
  {
    var i :| MatchAt(a, FINAL_CHUNK, i);
    assert (a + b)[i..i + 5] == a[i..i + 5];
    assert MatchAt(a + b, FINAL_CHUNK, i);
  }

  /** A chunked body ends in the zero-size chunk and the blank line; once it is whole the detector fires. */
  lemma FinalChunkOfChunkedBody(chunks: string)
    ensures HasFinalChunk(chunks + FINAL_CHUNK + CRLF)
  {
    MatchInConcat(chunks, FINAL_CHUNK, CRLF);
  }

  /** An empty chunked body, the zero-size chunk and the blank line in one piece, is not recognised: the start of the buffer is not checked. */
  lemma EmptyChunkedBodyNotSeen()
    ensures !HasFinalChunk("0\r\n\r\n")
  {
    var s := "0\r\n\r\n";
    forall i ensures !MatchAt(s, FINAL_CHUNK, i) {
      if 0 <= i && i + 5 <= |s| {
        assert i == 0;
        assert s[0] != FINAL_CHUNK[0];
      }
    }
    assert s[2..] == "\n\r\n";
  }

  // ================================================================ _drain_request_body

  /** The content-length branch: read until `remaining` bytes have come; anything but data gives up. */
  function DrainCount(remaining: int, input: seq<RecvResult>): (bool, seq<RecvResult>)
    decreases |input|
  {
    if remaining <= 0 then (true, input)
    else if input == [] then (false, [])
    else if Received(input[0]) then DrainCount(remaining - |input[0].bytes|, input[1..])
    else (false, input[1..])
  }

  /** The content-length branch succeeds iff the leading run of data carries at least the missing bytes. */
  lemma {:induction false} DrainCountSpec(remaining: int, input: seq<RecvResult>)
    ensures DrainCount(remaining, input).0 <==> remaining <= |DataBytes(input)|
    decreases |input|
  {
    if remaining > 0 && input != [] && Received(input[0]) {
      DrainCountSpec(remaining - |input[0].bytes|, input[1..]);
    }
  }

  /** The chunked branch: accumulate what arrives until the terminating chunk shows. */
  function DrainChunks(tmp: string, input: seq<RecvResult>): (bool, seq<RecvResult>)
    decreases |input|
  {
    if input == [] then (false, [])
    else if Received(input[0]) then
      var t := tmp + input[0].bytes;
      if HasFinalChunk(t) then (true, input[1..]) else DrainChunks(t, input[1..])
    else if input[0].Failed? || input[0].WouldBlock? then (false, input[1..])
    else (HasFinalChunk(tmp), input[1..])
  }

  /** Some non-empty prefix of the leading data, after `tmp`, satisfies `done`. */
  ghost predicate CompletesWithin(done: string -> bool, tmp: string, input: seq<RecvResult>) {
    exists k :: 0 < k <= DataCount(input) && done(tmp + DataBytes(input[..k]))
  }

  lemma CompletesCons(done: string -> bool, tmp: string, x: RecvResult, rest: seq<RecvResult>)
    requires Received(x)
    ensures CompletesWithin(done, tmp, [x] + rest) <==> done(tmp + x.bytes) || CompletesWithin(done, tmp + x.bytes, rest)
  {
    var input := [x] + rest;
    DataBytesCons(x, rest);
    DataBytesPrefix(x, rest, 0);
    assert rest[..0] == [];
    assert tmp + DataBytes(input[..1]) == tmp + x.bytes;
    if CompletesWithin(done, tmp + x.bytes, rest) {
      var k :| 0 < k <= DataCount(rest) && done(tmp + x.bytes + DataBytes(rest[..k]));
      DataBytesPrefix(x, rest, k);
      assert tmp + DataBytes(input[..k + 1]) == tmp + x.bytes + DataBytes(rest[..k]);
    }
    if CompletesWithin(done, tmp, input) && !done(tmp + x.bytes) {
      var k :| 0 < k <= DataCount(input) && done(tmp + DataBytes(input[..k]));
      assert k != 1;
      DataBytesPrefix(x, rest, k - 1);
      assert tmp + DataBytes(input[..k]) == tmp + x.bytes + DataBytes(rest[..k - 1]);
    }
  }

  /**
   * The chunked branch succeeds iff some prefix of the leading data completes the body. Since
   * every append is checked at once, the test made when the peer closes never succeeds.
   */
  lemma {:induction false} DrainChunksSpec(tmp: string, input: seq<RecvResult>)
    requires !HasFinalChunk(tmp)
    ensures DrainChunks(tmp, input).0 <==> CompletesWithin(HasFinalChunk, tmp, input)
    decreases |input|
  {
    if input != [] && Received(input[0]) {
      var t := tmp + input[0].bytes;
      assert input == [input[0]] + input[1..];
      CompletesCons(HasFinalChunk, tmp, input[0], input[1..]);
      if !HasFinalChunk(t) {
        DrainChunksSpec(t, input[1..]);
      }
    }
  }

  /** _drain_request_body: the body's end already buffered, the content-length count, the chunk scan, or nothing to drain. */
  function DrainBody(cr: ClientRequest, input: seq<RecvResult>): (bool, seq<RecvResult>) {
    if cr.isChunked && HasFinalChunk(cr.buffer) then (true, input)
    else if cr.contentLength >= 0 then DrainCount(cr.contentLength - BodyBytes(cr), input)
    else if cr.isChunked then DrainChunks("", input)
    else (true, input)
  }

  /** When the drain succeeds, in terms of the data that follows. */
  lemma DrainBodySpec(cr: ClientRequest, input: seq<RecvResult>)
    ensures
      (cr.isChunked && HasFinalChunk(cr.buffer) ==> DrainBody(cr, input) == (true, input))
      && (!(cr.isChunked && HasFinalChunk(cr.buffer)) && cr.contentLength >= 0 ==>
            (DrainBody(cr, input).0 <==> cr.contentLength <= BodyBytes(cr) + |DataBytes(input)|))
      && (!cr.isChunked && cr.contentLength < 0 ==> DrainBody(cr, input) == (true, input))
      && (cr.isChunked && !HasFinalChunk(cr.buffer) && cr.contentLength < 0 ==>
            (DrainBody(cr, input).0 <==> CompletesWithin(HasFinalChunk, "", input)))
  {
    DrainCountSpec(cr.contentLength - BodyBytes(cr), input);
    assert !HasFinalChunk("");
    DrainChunksSpec("", input);
  }

  /** The content-length loop of _drain_request_body. */
  method DrainByCount(remaining: int, input: seq<RecvResult>) returns (ok: bool, rest: seq<RecvResult>)
    ensures (ok, rest) == DrainCount(remaining, input)
  {
    var left := remaining;
    rest := input;
    while left > 0
      invariant DrainCount(left, rest) == DrainCount(remaining, input)
      decreases |rest|
    {
      if rest == [] {
        return false, [];
      }
      var n := rest[0];
      rest := rest[1..];
      if Received(n) {
        left := left - |n.bytes|;
      } else {
        return false, rest;
      }
    }
    ok := true;
  }

  /** The chunked loop of _drain_request_body. */
  method DrainByChunks(input: seq<RecvResult>) returns (ok: bool, rest: seq<RecvResult>)
    ensures (ok, rest) == DrainChunks("", input)
  {
    var tmp := "";
    rest := input;
    while true
      invariant DrainChunks(tmp, rest) == DrainChunks("", input)
      decreases |rest|
    {
      if rest == [] {
        return false, [];
      }
      var n := rest[0];
      rest := rest[1..];
      if Received(n) {
        tmp := tmp + n.bytes;
        if HasFinalChunk(tmp) {
          return true, rest;
        }
      } else if n.Failed? || n.WouldBlock? {
        return false, rest;
      } else {
        return HasFinalChunk(tmp), rest;
      }
    }
  }

  /** _drain_request_body. */
  method DrainRequestBody(cr: ClientRequest, input: seq<RecvResult>) returns (ok: bool, rest: seq<RecvResult>)
    ensures (ok, rest) == DrainBody(cr, input)
  {
    if cr.isChunked && HasFinalChunk(cr.buffer) {
      return true, input;
    }
    if cr.contentLength >= 0 {
      var have := if cr.currentSize > cr.bodyStart then cr.currentSize - cr.bodyStart else 0;
      ok, rest := DrainByCount(cr.contentLength - have, input);
      return;
    }
    if cr.isChunked {
      ok, rest := DrainByChunks(input);
      return;
    }
    return true, input;
  }

  // ================================================================ _try_drain_and_adjust_response

  const CONNECTION_CLOSE: string := "Connection: close"

  /** std::string::erase of the first occurrence of `pat`, if any. */
  function EraseFirst(s: string, pat: string): (r: string)
    ensures !Occurs(pat, s) ==> r == s
    ensures Occurs(pat, s) ==>
      |r| == |s| - |pat|
      && exists p :: MatchAt(s, pat, p) && r == s[..p] + s[p + |pat|..]
                     && forall j :: 0 <= j < p ==> !MatchAt(s, pat, j)
  {
    FindNoneIffAbsent(s, pat);
    match Find(s, pat, 0)
    case None => s
    case Some(p) => s[..p] + s[p + |pat|..]
  }

  /** The request once its body is consumed: emptied, but keeping its limit, path and method. */
  function Emptied(cr: ClientRequest): (r: ClientRequest)
    ensures Consistent(r) && r.buffer == "" && !r.headersParsed && !r.isChunked && r.contentLength == -1
    ensures r.maxSize == cr.maxSize && r.requestPath == cr.requestPath && r.methodName == cr.methodName
  {
    cr.(buffer := "", currentSize := 0, headerEnd := None, bodyStart := 0, contentLength := -1,
        headersParsed := false, isChunked := false)
  }

  datatype DrainResult = DrainResult(ok: bool, request: ClientRequest, response: string, rest: seq<RecvResult>)

  /**
   * _try_drain_and_adjust_response for a client whose request is known: without a body nothing
   * happens; a failed drain changes nothing but the stream; a successful one empties the request
   * and erases the first "Connection: close" text of the response.
   */
  function DrainAndAdjust(cr: ClientRequest, response: string, input: seq<RecvResult>): DrainResult {
    if !(cr.isChunked || cr.contentLength >= 0) then DrainResult(true, cr, response, input)
    else
      var d := DrainBody(cr, input);
      if !d.0 then DrainResult(false, cr, response, d.1)
      else DrainResult(true, Emptied(cr), EraseFirst(response, CONNECTION_CLOSE), d.1)
  }

  /** Only a drained body changes the request or the response, and then by the emptying and the one erasure. */
  lemma DrainAndAdjustSpec(cr: ClientRequest, response: string, input: seq<RecvResult>)
    ensures var d := DrainAndAdjust(cr, response, input);
      (!(cr.isChunked || cr.contentLength >= 0) ==> d == DrainResult(true, cr, response, input))
      && (!d.ok ==> d.request == cr && d.response == response)
      && ((cr.isChunked || cr.contentLength >= 0) && d.ok ==>
            d.request == Emptied(cr)
            && (Occurs(CONNECTION_CLOSE, response) ==> |d.response| == |response| - |CONNECTION_CLOSE|)
            && (!Occurs(CONNECTION_CLOSE, response) ==> d.response == response))
      && (Consistent(cr) ==> Consistent(d.request))
  {
  }

  /** _try_drain_and_adjust_response with its drain. */
  method TryDrainAndAdjust(cr: ClientRequest, response: string, input: seq<RecvResult>) returns (d: DrainResult)
    ensures d == DrainAndAdjust(cr, response, input)
  {
    if !(cr.isChunked || cr.contentLength >= 0) {
      return DrainResult(true, cr, response, input);
    }
    var drained, rest := DrainRequestBody(cr, input);
    if !drained {
      return DrainResult(false, cr, response, rest);
    }
    var r := cr.(buffer := "", currentSize := 0, headerEnd := None, bodyStart := 0);
    r := r.(contentLength := -1, headersParsed := false, isChunked := false);
    var resp := response;
    var pos := Find(resp, CONNECTION_CLOSE, 0);
    if pos.Some? {
      resp := resp[..pos.value] + resp[pos.value + |CONNECTION_CLOSE|..];
    }
    d := DrainResult(true, r, resp, rest);
  }
}
