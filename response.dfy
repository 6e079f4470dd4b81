/**
 * HttpResponse: the object that turns a routed request into a status line, headers and a body,
 * and serialises them for the socket.
 *
 * The response's state is mirrored by the value type `Fields`; each mutating method of the
 * class is specified by a function from the old `Fields` to the new one, and the properties of
 * the responses the server builds are lemmas about those functions.
 */
module Response {
  import opened Wrappers
  import opened Text
  import opened Utils
  import opened Records

  /** The members of an HttpResponse: the status line, the five optional headers and the body. */
  datatype Fields = Fields(
    code: int,
    message: string,
    body: string,
    contentType: string,
    contentLength: string,
    allow: string,
    connection: string,
    location: string)

  const SIZE_T_MODULUS: int := 0x1_0000_0000_0000_0000

  /** to_string(size_t), applied to an int: a negative value wraps modulo 2^64 first. */
  function SizeToString(n: int): string {
    NatToString(n % SIZE_T_MODULUS)
  }

  // ================================================================ serialisation

  function StatusLine(f: Fields): string {
    "HTTP/1.1 " + SizeToString(f.code) + " " + f.message
  }

  /** One header line: the name, ": " and the value. */
  function HeaderLine(name: string, value: string): string {
    name + ": " + value
  }

  /** The header lines getHeaders emits, in order; Allow and Location only when non-empty. */
  function HeaderLines(f: Fields): seq<string> {
    [HeaderLine("Content-Type", f.contentType), HeaderLine("Content-Length", f.contentLength)]
    + (if f.allow != "" then [HeaderLine("Allow", f.allow)] else [])
    + (if f.location != "" then [HeaderLine("Location", f.location)] else [])
    + [HeaderLine("Connection", f.connection)]
  }

  /** Each line followed by CRLF. */
  function Lines(ls: seq<string>): string {
    if ls == [] then "" else ls[0] + CRLF + Lines(ls[1..])
  }

  function Headers(f: Fields): string {
    Lines(HeaderLines(f))
  }

  /** toString: status line, CRLF, headers, CRLF, body. */
  function Wire(f: Fields): string {
    StatusLine(f) + CRLF + Headers(f) + CRLF + f.body
  }

  /** A line that does not break or begin a blank line when placed in a header block. */
  predicate SafeLine(l: string) {
    |l| > 0 && l[0] != '\r' && '\n' !in l
  }

  /** No header value carries a line feed. */
  predicate SingleLineFields(f: Fields) {
    '\n' !in f.message && '\n' !in f.contentType && '\n' !in f.contentLength
    && '\n' !in f.allow && '\n' !in f.connection && '\n' !in f.location
  }

  /** In a block of safe lines, a line feed is never followed by a carriage return. */
  lemma {:induction false} LinesNoBlankLine(ls: seq<string>)
    requires forall i :: 0 <= i < |ls| ==> SafeLine(ls[i])
    ensures |Lines(ls)| == 0 <==> ls == []
    ensures var t := Lines(ls); forall k :: 0 <= k < |t| - 1 && t[k] == '\n' ==> t[k + 1] != '\r'
  {
    if ls != [] {
      var l, rest := ls[0], Lines(ls[1..]);
      LinesNoBlankLine(ls[1..]);
      var t := Lines(ls);
      assert t == l + CRLF + rest;
      forall k | 0 <= k < |t| - 1 ensures t[k] == '\n' ==> t[k + 1] != '\r' {
        if k < |l| {
          assert t[k] == l[k];
        } else if k > |l| + 1 {
          assert t[k] == rest[k - |l| - 2] && t[k + 1] == rest[k - |l| - 1];
        } else if k == |l| + 1 {
          assert ls[1..] != [];
          assert ls[1..][0] == ls[1] && SafeLine(ls[1]);
          assert t[k + 1] == rest[0] == ls[1][0];
        }
      }
    }
  }

  /** toString as one block of lines, followed by the blank line and the body. */
  lemma WireAsLines(f: Fields)
    ensures Wire(f) == Lines([StatusLine(f)] + HeaderLines(f)) + CRLF + f.body
  {
    var all := [StatusLine(f)] + HeaderLines(f);
    assert all[1..] == HeaderLines(f);
  }

  /**
   * A reader that takes the head up to the first CRLFCRLF, as parse_headers does, finds it
   * exactly where toString put the blank line, so what follows is the whole body.
   */
  lemma WireFraming(f: Fields)
    requires SingleLineFields(f)
    ensures var h := |StatusLine(f)| + |Headers(f)|;
      Find(Wire(f), "\r\n\r\n", 0) == Some(h) && Wire(f)[h + 4..] == f.body
  {
    var ls := [StatusLine(f)] + HeaderLines(f);
    WireSafeLines(f);
    LinesNoBlankLine(ls);
    WireAsLines(f);
    var h := |StatusLine(f)| + |Headers(f)|;
    WireHead(f);
    FirstBlankLine(Lines(ls), f.body, h);
    FindAt(Wire(f), "\r\n\r\n", 0, h);
  }

  /** The status line and every header line of toString are safe. */
  lemma WireSafeLines(f: Fields)
    requires SingleLineFields(f)
    ensures var ls := [StatusLine(f)] + HeaderLines(f); forall i :: 0 <= i < |ls| ==> SafeLine(ls[i])
  {
    var ls := [StatusLine(f)] + HeaderLines(f);
    NatToStringDigits(f.code % SIZE_T_MODULUS);
    assert '\n' !in SizeToString(f.code);
    assert '\n' !in StatusLine(f);
    forall i | 0 <= i < |ls| ensures SafeLine(ls[i]) {
      assert ls[i][0] in "HCAL";
    }
  }

  /** The block of lines is the status line and the headers, and ends with CRLF. */
  lemma WireHead(f: Fields)
    ensures var t := Lines([StatusLine(f)] + HeaderLines(f)); var h := |StatusLine(f)| + |Headers(f)|;
      |t| == h + 2 && t[h..] == CRLF
  {
    var t := Lines([StatusLine(f)] + HeaderLines(f));
    assert ([StatusLine(f)] + HeaderLines(f))[1..] == HeaderLines(f);
    assert t == StatusLine(f) + CRLF + Headers(f);
    LastLineEnds(HeaderLines(f));
  }

  /** A block ending in CRLF in which no line feed is followed by a carriage return has its first blank line at its end. */
  lemma FirstBlankLine(t: string, body: string, h: nat)
    requires |t| == h + 2 && t[h..] == CRLF
    requires forall k :: 0 <= k < |t| - 1 && t[k] == '\n' ==> t[k + 1] != '\r'
    ensures var w := t + CRLF + body;
      MatchAt(w, "\r\n\r\n", h) && (forall j :: 0 <= j < h ==> !MatchAt(w, "\r\n\r\n", j)) && w[h + 4..] == body
  {
    var w := t + CRLF + body;
    forall j | 0 <= j < h ensures !MatchAt(w, "\r\n\r\n", j) {
      assert w[j + 1] == t[j + 1] && w[j + 2] == t[j + 2];
      assert w[j..j + 4][1] == w[j + 1] && w[j..j + 4][2] == w[j + 2];
    }
    assert w[h..h + 4] == t[h..] + CRLF;
    assert w[h + 4..] == body;
  }

  /** A non-empty block of lines ends with CRLF. */
  lemma LastLineEnds(ls: seq<string>)
    requires ls != []
    ensures |Lines(ls)| >= 2 && Lines(ls)[|Lines(ls)| - 2..] == CRLF
    decreases |ls|
  {
    if ls[1..] != [] {
      LastLineEnds(ls[1..]);
    }
  }

  /** The first line of toString is the status line. */
  lemma WireStatusLine(f: Fields)
    requires '\n' !in f.message
    ensures Find(Wire(f), CRLF, 0) == Some(|StatusLine(f)|)
  {
    NatToStringDigits(f.code % SIZE_T_MODULUS);
    assert '\n' !in SizeToString(f.code);
    assert '\n' !in StatusLine(f);
    FirstLine(StatusLine(f), Headers(f) + CRLF + f.body);
    assert Wire(f) == StatusLine(f) + CRLF + (Headers(f) + CRLF + f.body);
  }

  /** A line without a line feed, followed by CRLF, is found as the first line. */
  lemma FirstLine(s: string, rest: string)
    requires '\n' !in s
    ensures Find(s + CRLF + rest, CRLF, 0) == Some(|s|)
  {
    var w := s + CRLF + rest;
    forall j | 0 <= j < |s| ensures !MatchAt(w, CRLF, j) {
      if j + 1 < |s| {
        assert w[j + 1] == s[j + 1];
      } else {
        assert w[j + 1] == '\r';
      }
      assert w[j..j + 2][1] == w[j + 1];
    }
    assert w[|s|..|s| + 2] == CRLF;
    FindAt(w, CRLF, 0, |s|);
  }

  // ---------------------------------------------------------------- what a client reads

  /** The head of a response text: everything up to the CRLF that ends its last header line. */
  function HeadOf(w: string): string {
    match Find(w, "\r\n\r\n", 0)
    case None => w
    case Some(h) => w[..h + 2]
  }

  /** A client reading the text finds this status line as its first line and this body after the first blank line. */
  predicate ReadsAs(w: string, status: string, body: string) {
    Find(w, CRLF, 0) == Some(|status|) && w[..|status|] == status
    && Find(w, "\r\n\r\n", 0).Some? && w[Find(w, "\r\n\r\n", 0).value + 4..] == body
  }

  /** The head of the text holds this header line. */
  predicate HasHeader(w: string, name: string, value: string) {
    InStr(CRLF + HeaderLine(name, value) + CRLF, HeadOf(w))
  }

  /** A block of safe lines, a blank line and a body read as the first line and that body, and the head is the block. */
  lemma BlockReadsAs(ls: seq<string>, body: string)
    requires |ls| > 0 && forall i :: 0 <= i < |ls| ==> SafeLine(ls[i])
    ensures ReadsAs(Lines(ls) + CRLF + body, ls[0], body) && HeadOf(Lines(ls) + CRLF + body) == Lines(ls)
  {
    BlockFacts(ls, body);
    TextReadsAs(Lines(ls), body, ls[0]);
  }

  /** Where the first CRLF and the first blank line of such a text are. */
  lemma BlockFacts(ls: seq<string>, body: string)
    requires |ls| > 0 && forall i :: 0 <= i < |ls| ==> SafeLine(ls[i])
    ensures var t := Lines(ls); var first := ls[0];
      |t| >= 2 && Find(t + CRLF + body, "\r\n\r\n", 0) == Some(|t| - 2) && (t + CRLF + body)[|t| + 2..] == body
      && Find(t + CRLF + body, CRLF, 0) == Some(|first|) && |first| <= |t| && t[..|first|] == first
  {
    BlockBlankLine(ls, body);
    BlockFirstLine(ls, body);
  }

  /** The prefix and suffix facts of a block, a blank line and a body, put together. */
  lemma TextReadsAs(t: string, body: string, first: string)
    requires |t| >= 2 && Find(t + CRLF + body, "\r\n\r\n", 0) == Some(|t| - 2) && (t + CRLF + body)[|t| + 2..] == body
    requires Find(t + CRLF + body, CRLF, 0) == Some(|first|) && |first| <= |t| && t[..|first|] == first
    ensures ReadsAs(t + CRLF + body, first, body) && HeadOf(t + CRLF + body) == t
  {
    var w := t + CRLF + body;
    assert w[..|t|] == t;
    assert w[..|first|] == t[..|first|];
  }

  /** The first blank line of such a text ends the block. */
  lemma BlockBlankLine(ls: seq<string>, body: string)
    requires |ls| > 0 && forall i :: 0 <= i < |ls| ==> SafeLine(ls[i])
    ensures var t := Lines(ls);
      |t| >= 2 && Find(t + CRLF + body, "\r\n\r\n", 0) == Some(|t| - 2) && (t + CRLF + body)[|t| + 2..] == body
  {
    var t := Lines(ls);
    LinesNoBlankLine(ls);
    LastLineEnds(ls);
    FirstBlankLine(t, body, |t| - 2);
    FindAt(t + CRLF + body, "\r\n\r\n", 0, |t| - 2);
  }

  /** The first line of such a text is the block's first line. */
  lemma BlockFirstLine(ls: seq<string>, body: string)
    requires |ls| > 0 && SafeLine(ls[0])
    ensures Find(Lines(ls) + CRLF + body, CRLF, 0) == Some(|ls[0]|) && |ls[0]| <= |Lines(ls)|
      && Lines(ls)[..|ls[0]|] == ls[0]
  {
    FirstLine(ls[0], Lines(ls[1..]) + CRLF + body);
    assert Lines(ls) + CRLF + body == ls[0] + CRLF + (Lines(ls[1..]) + CRLF + body);
  }

  /** Every line after the first sits between two CRLFs. */
  lemma {:induction false} LinesHold(ls: seq<string>, i: nat)
    requires 1 <= i < |ls|
    ensures InStr(CRLF + ls[i] + CRLF, Lines(ls))
  {
    var pat := CRLF + ls[i] + CRLF;
    var rest := Lines(ls[1..]);
    assert Lines(ls) == ls[0] + CRLF + rest;
    if i == 1 {
      assert ls[1..][0] == ls[1] && ls[1..][1..] == ls[2..];
      assert rest == ls[1] + CRLF + Lines(ls[2..]);
      assert Lines(ls) == ls[0] + pat + Lines(ls[2..]);
      MatchInConcat(ls[0], pat, Lines(ls[2..]));
    } else {
      assert ls[1..][i - 1] == ls[i];
      LinesHold(ls[1..], i - 1);
      var j :| MatchAt(rest, pat, j);
      MatchExtend(ls[0] + CRLF, rest, "", pat, j);
      assert ls[0] + CRLF + rest + "" == Lines(ls);
    }
  }

  /**
   * What a client reads from toString: the status line first, the body after the blank line, and
   * the Content-Type, Content-Length and Connection lines in the head.
   */
  lemma WireReadsAs(f: Fields)
    requires SingleLineFields(f)
    ensures ReadsAs(Wire(f), StatusLine(f), f.body)
    ensures HasHeader(Wire(f), "Content-Type", f.contentType)
    ensures HasHeader(Wire(f), "Content-Length", f.contentLength)
    ensures HasHeader(Wire(f), "Connection", f.connection)
  {
    var ls := [StatusLine(f)] + HeaderLines(f);
    WireSafeLines(f);
    WireAsLines(f);
    BlockReadsAs(ls, f.body);
    LinesHold(ls, 1);
    LinesHold(ls, 2);
    LinesHold(ls, |ls| - 1);
  }

  // ================================================================ building responses

  /** The members of a freshly constructed HttpResponse before reset_all. */
  function Initial(): Fields {
    Fields(0, "Empty", "", "", "", "", "", "")
  }

  /** reset_all. */
  function Reset(reason: int -> string): Fields {
    Fields(0, reason(0), "", "", "0", "", "", "")
  }

  /** Assigning ResponseStatus(code): the reason phrase comes from statusCodeString. */
  function WithStatus(f: Fields, code: int, reason: int -> string): Fields {
    f.(code := code, message := reason(code))
  }

  /** set_empty_response_alive / set_empty_response_close, by their Connection value. */
  function Emptied(f: Fields, code: int, reason: int -> string, connection: string): Fields {
    WithStatus(f, code, reason).(contentType := "text/html", contentLength := "0",
                                 connection := connection, body := "")
  }

  /** set_redirect_response. */
  function Redirected(f: Fields, code: int, target: string, reason: int -> string): Fields {
    Emptied(f, code, reason, "keep-alive").(location := target)
  }

  /** A page body with its length, kept alive. */
  function WithBody(f: Fields, code: int, reason: int -> string, contentType: string, body: string): Fields {
    WithStatus(f, code, reason).(body := body, contentType := contentType,
                                 contentLength := NatToString(|body|), connection := "keep-alive")
  }

  /** Content-Length announces the exact size of the body. */
  predicate LengthConsistent(f: Fields) {
    f.contentLength == NatToString(|f.body|)
  }

  /** get_default_error_page. */
  const ERROR_PAGE_HEAD: string :=
    "<!DOCTYPE html><html lang=\"en\"><head><meta charset=\"UTF-8\">"
    + "<meta name=\"viewport\" content=\"width=device-width, initial-scale=1.0\">"
  const ERROR_PAGE_STYLE: string :=
    "<style>"
    + "body { font-family: Arial, sans-serif; text-align: center; padding: 20px; color: #333; background-color: #f8f8f8; }"
    + ".error { font-size: 48px; font-weight: bold; color: #e74c3c; }"
    + ".message { font-size: 24px; color: #555; }"
    + "</style></head><body>"
  const ERROR_PAGE_TAIL: string := "<div class=\"message\">We are sorry.</div></body></html>"

  function ErrorTitle(code: int): string {
    "<title>Error - " + IntToString(code) + "</title>"
  }

  function ErrorBanner(code: int, message: string): string {
    "<div class=\"error\">" + IntToString(code) + " - " + message + "</div>"
  }

  function DefaultErrorPage(code: int, message: string): string {
    ERROR_PAGE_HEAD + ErrorTitle(code) + ERROR_PAGE_STYLE + ErrorBanner(code, message) + ERROR_PAGE_TAIL
  }

  /** The default error page names the status code in its title and the code with its reason in its text. */
  lemma DefaultErrorPageNamesError(code: int, message: string)
    ensures InStr(ErrorTitle(code), DefaultErrorPage(code, message))
    ensures InStr(ErrorBanner(code, message), DefaultErrorPage(code, message))
  {
    var title, banner := ErrorTitle(code), ErrorBanner(code, message);
    MatchInConcat(ERROR_PAGE_HEAD, title, ERROR_PAGE_STYLE + banner + ERROR_PAGE_TAIL);
    MatchInConcat(ERROR_PAGE_HEAD + title + ERROR_PAGE_STYLE, banner, ERROR_PAGE_TAIL);
    SeqAssoc5(ERROR_PAGE_HEAD, title, ERROR_PAGE_STYLE, banner, ERROR_PAGE_TAIL);
  }

  lemma SeqAssoc5(a: string, b: string, c: string, d: string, e: string)
    ensures a + b + c + d + e == a + b + (c + d + e)
  {
  }

  /** HttpResponse(int): the default error page for the code, closing the connection. */
  function ErrorPageFields(code: int, reason: int -> string): Fields {
    var page := DefaultErrorPage(code, reason(code));
    Fields(code, reason(code), page, "text/html", NatToString(|page|), "", "close", "")
  }

  /**
   * HttpResponse(int, string): a redirection to the target for 301..308, otherwise the target
   * file read as the body; an unreadable file raises 403.
   */
  function TargetOutcome(code: int, target: string, env: Env, reason: int -> string): Result<Fields, int> {
    if 301 <= code <= 308 then Success(Redirected(Initial(), code, target, reason))
    else if target !in env.contents then Failure(FORBIDDEN)
    else Success(WithBody(Initial(), code, reason, "text/html", env.contents[target]))
  }

  /** The error page and redirection constructors. */
  lemma TargetOutcomeCases(code: int, target: string, env: Env, reason: int -> string)
    ensures var r := TargetOutcome(code, target, env, reason);
      (301 <= code <= 308 ==> r.Success? && r.value.location == target && r.value.body == ""
                              && r.value.connection == "keep-alive")
      && (!(301 <= code <= 308) ==> (r == Failure(FORBIDDEN) <==> target !in env.contents))
      && (r.Success? && !(301 <= code <= 308) ==> r.value.body == env.contents[target] && r.value.location == "")
      && (r.Success? ==> r.value.code == code && r.value.message == reason(code) && LengthConsistent(r.value))
  {
    NatToStringZero();
  }

  /** "0" is the decimal rendering of an empty body's length. */
  lemma NatToStringZero()
    ensures NatToString(0) == "0"
  {
  }

  /** The default error page's header values are single lines when its reason is. */
  lemma ErrorPageFieldsSingleLine(code: int, reason: int -> string)
    requires '\n' !in reason(code)
    ensures SingleLineFields(ErrorPageFields(code, reason))
  {
    var f := ErrorPageFields(code, reason);
    NatToStringPlain(|f.body|);
    assert forall i :: 0 <= i < |f.contentLength| ==> f.contentLength[i] != '\n';
  }

  /** The default error page announces its own length and closes the connection. */
  lemma ErrorPageFieldsShape(code: int, reason: int -> string)
    ensures var f := ErrorPageFields(code, reason);
      LengthConsistent(f) && f.code == code && f.connection == "close" && f.allow == "" && f.location == ""
  {
  }

  // ---------------------------------------------------------------- content type

  /** discover_content_type: the first of the extensions that occurs anywhere in the name. */
  function DiscoverContentType(filename: string): string {
    if InStr(".css", filename) then "text/css"
    else if InStr(".js", filename) then "application/javascript"
    else if InStr(".jpg", filename) || InStr(".jpeg", filename) then "image/jpeg"
    else if InStr(".png", filename) then "image/png"
    else "text/html"
  }

  /** The media type of a file extension, as a table. */
  function MediaTypeOfExtension(ext: string): string {
    if ext == ".css" then "text/css"
    else if ext == ".js" then "application/javascript"
    else if ext == ".jpg" || ext == ".jpeg" then "image/jpeg"
    else if ext == ".png" then "image/png"
    else "text/html"
  }

  /** In a name with one '.', a pattern that starts with '.' occurs only as a prefix of the extension. */
  lemma DotPattern(path: string, ext: string, p: string)
    requires |ext| <= |path| && ext == path[|path| - |ext|..] && |ext| > 0 && ext[0] == '.'
    requires '.' !in path[..|path| - |ext|] && '.' !in ext[1..]
    requires |p| > 0 && p[0] == '.'
    ensures InStr(p, path) <==> |p| <= |ext| && ext[..|p|] == p
  {
    var b := |path| - |ext|;
    forall i | 0 <= i <= |path| - |p| ensures MatchAt(path, p, i) ==> i == b {
      assert path[i..i + |p|][0] == path[i];
      if i < b {
        assert path[..b][i] == path[i];
      } else if i > b {
        assert ext[1..][i - b - 1] == path[i];
      }
    }
    if |p| <= |ext| {
      assert path[b..b + |p|] == ext[..|p|];
      if ext[..|p|] == p {
        assert MatchAt(path, p, b);
      }
    }
    if InStr(p, path) {
      var i :| MatchAt(path, p, i);
    }
  }

  /** For a name with a single '.', the substring test agrees with the extension table on the known extensions. */
  lemma ContentTypeOfKnownExtension(base: string, ext: string)
    requires '.' !in base
    requires ext == ".css" || ext == ".js" || ext == ".jpg" || ext == ".jpeg" || ext == ".png" || ext == ".html"
    requires '.' !in ext[1..]
    ensures DiscoverContentType(base + ext) == MediaTypeOfExtension(ext)
  {
    var path := base + ext;
    assert path[|path| - |ext|..] == ext && path[..|path| - |ext|] == base;
    DotPattern(path, ext, ".css");
    DotPattern(path, ext, ".js");
    DotPattern(path, ext, ".jpg");
    DotPattern(path, ext, ".jpeg");
    DotPattern(path, ext, ".png");
    assert ext[..|ext|] == ext;
    if ext == ".js" {
      NotPrefix(ext, ".css", 1);
    } else if ext == ".jpg" {
      NotPrefix(ext, ".css", 1);
      NotPrefix(ext, ".js", 2);
    } else if ext == ".jpeg" {
      NotPrefix(ext, ".css", 1);
      NotPrefix(ext, ".js", 2);
      NotPrefix(ext, ".jpg", 3);
      assert ext[..5] == ext;
    } else if ext == ".png" {
      NotPrefix(ext, ".css", 1);
      NotPrefix(ext, ".js", 1);
      NotPrefix(ext, ".jpg", 1);
      NotPrefix(ext, ".jpeg", 1);
    } else if ext == ".html" {
      NotPrefix(ext, ".css", 1);
      NotPrefix(ext, ".js", 1);
      NotPrefix(ext, ".jpg", 1);
      NotPrefix(ext, ".jpeg", 1);
      NotPrefix(ext, ".png", 1);
    }
  }

  /** Two strings that differ at index `k` of `p` do not have `p` as a common prefix. */
  lemma NotPrefix(ext: string, p: string, k: nat)
    requires k < |p| && (k >= |ext| || ext[k] != p[k])
    ensures !(|p| <= |ext| && ext[..|p|] == p)
  {
    if |p| <= |ext| {
      assert ext[..|p|][k] == ext[k];
    }
  }

  /** The extension getFileExtension reports for such a name is the one the table is consulted with. */
  lemma ExtensionOfSingleDotName(base: string, ext: string)
    requires '.' !in base && |ext| > 0 && ext[0] == '.' && '.' !in ext[1..]
    ensures GetFileExtension(base + ext) == ext
  {
    var path := base + ext;
    var r := GetFileExtension(path);
    assert path[|base|] == '.';
    assert '.' in path;
    forall i | 0 <= i < |path| && i != |base| ensures path[i] != '.' {
      if i < |base| {
        assert base[i] == path[i];
      } else {
        assert ext[1..][i - |base| - 1] == path[i];
      }
    }
    var k := |path| - |r|;
    assert path[k] == r[0];
  }

  /** The substring test looks at the whole name: a style sheet's source map is served as CSS. */
  lemma ContentTypeOfSourceMap(path: string)
    requires path == "www/style.css.map"
    ensures DiscoverContentType(path) == "text/css"
  {
    MatchInConcat("www/style", ".css", ".map");
    assert path == "www/style" + ".css" + ".map";
  }

  // ---------------------------------------------------------------- autoindex and web index

  const INDEX_HEAD: string := "<html><body><h1>Index</h1><ul>"
  const INDEX_TAIL: string := "</ul></body></html>"

  /** One entry of an autoindex listing. */
  function Item(e: string): string {
    "<li><a href='" + e + "'>" + e + "</a></li>"
  }

  function Items(es: seq<string>): string {
    if es == [] then "" else Items(es[..|es| - 1]) + Item(es[|es| - 1])
  }

  /** The readdir entries generate_autoindex keeps: all but ".". */
  function Visible(entries: seq<string>): seq<string> {
    if entries == [] then []
    else Visible(entries[..|entries| - 1])
         + (if entries[|entries| - 1] == "." then [] else [entries[|entries| - 1]])
  }

  function AutoindexPage(entries: seq<string>): string {
    INDEX_HEAD + Items(Visible(entries)) + INDEX_TAIL
  }

  /** The listing keeps every entry as often as readdir returned it, except ".". */
  lemma {:induction false} VisibleCounts(entries: seq<string>)
    ensures multiset(Visible(entries)) == multiset(entries)["." := 0]
    ensures "." !in Visible(entries)
  {
    if entries != [] {
      var init, last := entries[..|entries| - 1], entries[|entries| - 1];
      VisibleCounts(init);
      assert entries == init + [last];
    }
  }

  /** Every listed entry gets a link in the page. */
  lemma {:induction false} ItemsLinkAll(es: seq<string>, e: string)
    requires e in es
    ensures InStr(Item(e), Items(es))
  {
    var init, last := es[..|es| - 1], es[|es| - 1];
    assert es == init + [last];
    if e == last {
      MatchInConcat(Items(init), Item(e), "");
      assert Items(es) == Items(init) + Item(e) + "";
    } else {
      ItemsLinkAll(init, e);
      var i :| MatchAt(Items(init), Item(e), i);
      MatchExtend("", Items(init), Item(last), Item(e), i);
      assert "" + Items(init) + Item(last) == Items(es);
    }
  }

  /** The autoindex page links every readdir entry except ".". */
  lemma AutoindexLinksEntries(entries: seq<string>, e: string)
    requires e in entries && e != "."
    ensures InStr(Item(e), AutoindexPage(entries))
  {
    VisibleCounts(entries);
    assert e in multiset(Visible(entries));
    ItemsLinkAll(Visible(entries), e);
    var i :| MatchAt(Items(Visible(entries)), Item(e), i);
    MatchExtend(INDEX_HEAD, Items(Visible(entries)), INDEX_TAIL, Item(e), i);
  }

  const GALLERY_MARKER: string := "<!--GALERIA-->"
  const PHOTO_MARKER: string := "<!--PHOTO_DETAIL-->"

  /** generate_webindex's edit: the first occurrence of the marker replaced, if there is one. */
  function SpliceFirst(html: string, marker: string, text: string): string {
    match Find(html, marker, 0)
    case None => html
    case Some(p) => html[..p] + text + html[p + |marker|..]
  }

  /** With a single marker, replacing the first one is replacing them all. */
  lemma SpliceSingleMarker(html: string, marker: string, text: string, p: nat)
    requires |marker| > 0 && MatchAt(html, marker, p)
    requires forall j :: MatchAt(html, marker, j) ==> j == p
    ensures SpliceFirst(html, marker, text) == Replaced(html, marker, text)
  {
    FindAt(html, marker, 0, p);
    ReplaceFirst(html, marker, text, p);
    var rest := html[p + |marker|..];
    forall j | 0 <= j ensures !MatchAt(rest, marker, j) {
      MatchAtDrop(html, marker, p + |marker|, j);
    }
    ReplacedNoMatch(rest, marker, text);
  }

  /** A second marker, after the first, survives generate_webindex's edit. */
  lemma SpliceKeepsLaterMarker(html: string, marker: string, text: string, p: nat, q: nat)
    requires MatchAt(html, marker, p) && forall j :: 0 <= j < p ==> !MatchAt(html, marker, j)
    requires p + |marker| <= q && MatchAt(html, marker, q)
    ensures MatchAt(SpliceFirst(html, marker, text), marker, q - |marker| + |text|)
  {
    FindAt(html, marker, 0, p);
    var r := SpliceFirst(html, marker, text);
    var rest := html[p + |marker|..];
    assert r == html[..p] + text + rest;
    MatchAtDrop(html, marker, p + |marker|, q - p - |marker|);
    assert r[p + |text|..] == rest;
    MatchAtDrop(r, marker, p + |text|, q - p - |marker|);
  }

  /** A page without the marker is served unchanged. */
  lemma SpliceNoMarker(html: string, marker: string, text: string)
    requires !InStr(marker, html)
    ensures SpliceFirst(html, marker, text) == html
  {
    FindNoneIffAbsent(html, marker);
  }

  // ---------------------------------------------------------------- the request handlers

  /** generate_autoindex: opendir failing raises 500. */
  function AutoindexOutcome(f: Fields, path: string, env: Env, reason: int -> string): Result<Fields, int> {
    if path !in env.listings then Failure(INTERNAL_SERVER_ERROR)
    else Success(WithBody(f, OK, reason, "text/html", AutoindexPage(env.listings[path])))
  }

  /** generate_webindex: the CGI's gallery goes in place of the first marker. */
  function WebindexOutcome(f: Fields, path: string, env: Env, reason: int -> string): Result<Fields, int> {
    if path !in env.contents then Failure(NOT_FOUND)
    else Success(WithBody(f, OK, reason, "text/html", SpliceFirst(env.contents[path], GALLERY_MARKER, env.cgiOutput)))
  }

  /** handle_GET. */
  function GetOutcome(f: Fields, req: Request, env: Env, reason: int -> string): Result<Fields, int> {
    if req.autoindex then AutoindexOutcome(f, req.path, env, reason)
    else if req.path !in env.contents then Failure(NOT_FOUND)
    else if req.path == PHOTO_DETAIL_PAGE then
      Success(WithBody(f, OK, reason, "text/html", Replaced(env.contents[req.path], PHOTO_MARKER, env.cgiOutput)))
    else if req.path == DEFAULT_INDEX then WebindexOutcome(f, req.path, env, reason)
    else Success(WithBody(f, OK, reason, DiscoverContentType(req.path), env.contents[req.path]))
  }

  /** handle_POST: a location CGI for the extension, the upload endpoint, or an empty 200. */
  function PostOutcome(f: Fields, req: Request, reason: int -> string): Result<Fields, int> {
    if req.matched.Some? && CgiHandler(req.matched.value, GetFileExtension(req.path)) != "" then
      Success(Emptied(f, CREATED, reason, "keep-alive"))
    else if req.path == UPLOADS_URI then
      if req.body == "" then Failure(BAD_REQUEST) else Success(Emptied(f, CREATED, reason, "keep-alive"))
    else Success(WithBody(f, OK, reason, "text/html", ""))
  }

  /** DELETE: without a query there is nothing to delete. */
  function DeleteOutcome(f: Fields, req: Request, reason: int -> string): Fields {
    if req.query == "" then Emptied(f, NOT_FOUND, reason, "close") else Emptied(f, OK, reason, "keep-alive")
  }

  /** HttpResponse(Request*): dispatch on the method; a status still 0 afterwards raises 501. */
  function RequestOutcome(req: Request, env: Env, reason: int -> string): Result<Fields, int> {
    var f := Reset(reason);
    var r :=
      if req.methodName == "GET" then GetOutcome(f, req, env, reason)
      else if req.methodName == "POST" then PostOutcome(f, req, reason)
      else if req.methodName == "DELETE" then Success(DeleteOutcome(f, req, reason))
      else Success(f);
    if r.Success? && r.value.code == 0 then Failure(NOT_IMPLEMENTED) else r
  }

  /** Every response built for a request announces its body's exact length and sets no Allow or Location. */
  lemma RequestOutcomeShape(req: Request, env: Env, reason: int -> string)
    ensures var r := RequestOutcome(req, env, reason);
      (r.Success? ==> LengthConsistent(r.value) && r.value.allow == "" && r.value.location == ""
                      && r.value.code in {OK, CREATED, NOT_FOUND} && r.value.contentType != "")
      && (r.Failure? ==> r.error in {BAD_REQUEST, NOT_FOUND, INTERNAL_SERVER_ERROR, NOT_IMPLEMENTED})
  {
    NatToStringZero();
  }

  /** Exactly the methods other than GET, POST and DELETE are answered with 501. */
  lemma NotImplementedIffUnknownMethod(req: Request, env: Env, reason: int -> string)
    ensures RequestOutcome(req, env, reason) == Failure(NOT_IMPLEMENTED)
            <==> req.methodName !in {"GET", "POST", "DELETE"}
  {
  }

  /** The upload endpoint refuses an empty body unless a location CGI takes the request. */
  lemma PostUploadCases(req: Request, env: Env, reason: int -> string)
    requires req.methodName == "POST" && req.path == UPLOADS_URI
    requires req.matched.None? || CgiHandler(req.matched.value, GetFileExtension(req.path)) == ""
    ensures RequestOutcome(req, env, reason) == Failure(BAD_REQUEST) <==> req.body == ""
    ensures req.body != "" ==> RequestOutcome(req, env, reason).Success?
                               && RequestOutcome(req, env, reason).value.code == CREATED
  {
  }

  /** A DELETE without a query gets an empty 404 that closes the connection; with one, an empty 200 kept alive. */
  lemma DeleteCases(req: Request, env: Env, reason: int -> string)
    requires req.methodName == "DELETE"
    ensures var r := RequestOutcome(req, env, reason);
      r.Success? && r.value.body == "" && r.value.contentLength == "0" && r.value.message == reason(r.value.code)
      && (req.query == "" ==> r.value.code == NOT_FOUND && r.value.connection == "close")
      && (req.query != "" ==> r.value.code == OK && r.value.connection == "keep-alive")
  {
    NatToStringZero();
  }

  /** A GET for a readable ordinary file serves its bytes with the type its name suggests. */
  lemma GetServesFile(req: Request, env: Env, reason: int -> string)
    requires req.methodName == "GET" && !req.autoindex && req.path in env.contents
    requires req.path != PHOTO_DETAIL_PAGE && req.path != DEFAULT_INDEX
    ensures var r := RequestOutcome(req, env, reason);
      r.Success? && r.value.code == OK && r.value.body == env.contents[req.path]
      && r.value.contentType == DiscoverContentType(req.path) && r.value.connection == "keep-alive"
  {
  }

  /** Settling a handler's result: a raised code, or the fields it left. */
  function Settled(f: Fields, err: Option<int>): Result<Fields, int> {
    if err.Some? then Failure(err.value) else Success(f)
  }

  // ================================================================ the class

  class HttpResponse {
    var code: int
    var message: string
    var body: string
    var contentType: string
    var contentLength: string
    var allow: string
    var connection: string
    var location: string
    /** statusCodeString, whose table is not part of this model. */
    const reason: int -> string

    function Snapshot(): Fields
      reads this
    {
      Fields(code, message, body, contentType, contentLength, allow, connection, location)
    }

    /** getResponse / toString. */
    function ToString(): string
      reads this
    {
      Wire(Snapshot())
    }

    constructor Blank(reason: int -> string)
      ensures Snapshot() == Initial() && this.reason == reason
    {
      code, message, body := 0, "Empty", "";
      contentType, contentLength, allow, connection, location := "", "", "", "", "";
      this.reason := reason;
    }

    /** HttpResponse(int): the default error page. */
    constructor ErrorPage(errorCode: int, reason: int -> string)
      ensures Snapshot() == ErrorPageFields(errorCode, reason) && this.reason == reason
    {
      var page := DefaultErrorPage(errorCode, reason(errorCode));
      code, message := errorCode, reason(errorCode);
      body := page;
      contentType := "text/html";
      contentLength := NatToString(|page|);
      connection := "close";
      allow, location := "", "";
      this.reason := reason;
    }

    /** HttpResponse(int, string): a redirection or a configured error page file. */
    static method WithTarget(errorCode: int, target: string, env: Env, reason: int -> string)
      returns (r: Result<HttpResponse, int>)
      ensures TargetOutcome(errorCode, target, env, reason).Failure? ==>
                r == Failure(TargetOutcome(errorCode, target, env, reason).error)
      ensures TargetOutcome(errorCode, target, env, reason).Success? ==>
                r.Success? && fresh(r.value) && r.value.reason == reason
                && r.value.Snapshot() == TargetOutcome(errorCode, target, env, reason).value
    {
      var resp := new HttpResponse.Blank(reason);
      if 301 <= errorCode <= 308 {
        resp.SetRedirectResponse(errorCode, target);
        return Success(resp);
      }
      resp.code, resp.message := errorCode, reason(errorCode);
      if target !in env.contents {
        return Failure(FORBIDDEN);
      }
      resp.body := env.contents[target];
      resp.contentType := "text/html";
      resp.contentLength := NatToString(|resp.body|);
      resp.connection := "keep-alive";
      r := Success(resp);
    }

    /** HttpResponse(Request*). */
    static method ForRequest(req: Request, env: Env, reason: int -> string)
      returns (r: Result<HttpResponse, int>)
      ensures RequestOutcome(req, env, reason).Failure? ==>
                r == Failure(RequestOutcome(req, env, reason).error)
      ensures RequestOutcome(req, env, reason).Success? ==>
                r.Success? && fresh(r.value) && r.value.reason == reason
                && r.value.Snapshot() == RequestOutcome(req, env, reason).value
    {
      var resp := new HttpResponse.Blank(reason);
      resp.ResetAll();
      if req.methodName == "GET" {
        var err := resp.HandleGet(req, env);
        if err.Some? {
          return Failure(err.value);
        }
      } else if req.methodName == "POST" {
        var err := resp.HandlePost(req);
        if err.Some? {
          return Failure(err.value);
        }
      } else if req.methodName == "DELETE" {
        if req.query == "" {
          resp.SetEmptyResponseClose(NOT_FOUND);
        } else {
          resp.SetEmptyResponseAlive(OK);
        }
      }
      if resp.code == 0 {
        return Failure(NOT_IMPLEMENTED);
      }
      r := Success(resp);
    }

    method ResetAll()
      modifies this
      ensures Snapshot() == Reset(reason)
    {
      code, message := 0, reason(0);
      body := "";
      contentType, contentLength, allow, connection, location := "", "0", "", "", "";
    }

    method SetRedirectResponse(c: int, target: string)
      requires 300 <= c < 400
      modifies this
      ensures Snapshot() == Redirected(old(Snapshot()), c, target, reason)
    {
      code, message := c, reason(c);
      contentType, contentLength, connection, location := "text/html", "0", "keep-alive", target;
      body := "";
    }

    method SetEmptyResponseAlive(c: int)
      modifies this
      ensures Snapshot() == Emptied(old(Snapshot()), c, reason, "keep-alive")
    {
      code, message := c, reason(c);
      contentType, contentLength, connection := "text/html", "0", "keep-alive";
      body := "";
    }

    method SetEmptyResponseClose(c: int)
      modifies this
      ensures Snapshot() == Emptied(old(Snapshot()), c, reason, "close")
    {
      code, message := c, reason(c);
      contentType, contentLength, connection := "text/html", "0", "close";
      body := "";
    }

    method SetAllowMethods(methods: string)
      modifies this
      ensures Snapshot() == old(Snapshot()).(allow := methods)
    {
      allow := methods;
    }

    /** Sets a page body with its length and status, keeping the connection alive. */
    method SetPage(c: int, ct: string, page: string)
      modifies this
      ensures Snapshot() == WithBody(old(Snapshot()), c, reason, ct, page)
    {
      body, contentType := page, ct;
      contentLength := NatToString(|page|);
      connection := "keep-alive";
      code, message := c, reason(c);
    }

    method HandleGet(req: Request, env: Env) returns (err: Option<int>)
      modifies this
      ensures Settled(Snapshot(), err) == GetOutcome(old(Snapshot()), req, env, reason)
    {
      if req.autoindex {
        err := GenerateAutoindex(req, env);
        return;
      }
      if req.path !in env.contents {
        return Some(NOT_FOUND);
      }
      if req.path == PHOTO_DETAIL_PAGE {
        var html := env.contents[PHOTO_DETAIL_PAGE];
        html := ReplaceAll(html, PHOTO_MARKER, env.cgiOutput);
        SetPage(OK, "text/html", html);
        return None;
      }
      if req.path == DEFAULT_INDEX {
        err := GenerateWebindex(req, env);
        return;
      }
      SetPage(OK, DiscoverContentType(req.path), env.contents[req.path]);
      err := None;
    }

    method HandlePost(req: Request) returns (err: Option<int>)
      modifies this
      ensures Settled(Snapshot(), err) == PostOutcome(old(Snapshot()), req, reason)
    {
      if req.matched.Some? {
        var ext := GetFileExtension(req.path);
        var cgiExec := CgiHandler(req.matched.value, ext);
        if cgiExec != "" {
          SetEmptyResponseAlive(CREATED);
          return None;
        }
      }
      if req.path == UPLOADS_URI {
        if req.body == "" {
          return Some(BAD_REQUEST);
        }
        SetEmptyResponseAlive(CREATED);
      } else {
        SetPage(OK, "text/html", "");
      }
      err := None;
    }

    /** generate_autoindex: collect the readdir entries but ".", then render the list. */
    method GenerateAutoindex(req: Request, env: Env) returns (err: Option<int>)
      modifies this
      ensures Settled(Snapshot(), err) == AutoindexOutcome(old(Snapshot()), req.path, env, reason)
    {
      if req.path !in env.listings {
        return Some(INTERNAL_SERVER_ERROR);
      }
      var listing := env.listings[req.path];
      var entries: seq<string> := [];
      var i := 0;
      while i < |listing|
        invariant i <= |listing|
        invariant entries == Visible(listing[..i])
      {
        assert listing[..i + 1][..i] == listing[..i];
        if listing[i] != "." {
          entries := entries + [listing[i]];
        }
        i := i + 1;
      }
      assert listing[..i] == listing;
      var html := INDEX_HEAD;
      var k := 0;
      while k < |entries|
        invariant k <= |entries|
        invariant html == INDEX_HEAD + Items(entries[..k])
      {
        assert entries[..k + 1][..k] == entries[..k];
        html := html + Item(entries[k]);
        k := k + 1;
      }
      assert entries[..k] == entries;
      html := html + INDEX_TAIL;
      SetPage(OK, "text/html", html);
      err := None;
    }

    /** generate_webindex: the gallery from getIndex.py in place of the first marker. */
    method GenerateWebindex(req: Request, env: Env) returns (err: Option<int>)
      requires req.path == DEFAULT_INDEX
      modifies this
      ensures Settled(Snapshot(), err) == WebindexOutcome(old(Snapshot()), req.path, env, reason)
    {
      if req.path !in env.contents {
        return Some(NOT_FOUND);
      }
      var html := env.contents[req.path];
      var pos := Find(html, GALLERY_MARKER, 0);
      if pos.Some? {
        html := html[..pos.value] + env.cgiOutput + html[pos.value + |GALLERY_MARKER|..];
      }
      SetPage(OK, "text/html", html);
      err := None;
    }
  }
}
