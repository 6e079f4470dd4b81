/**
 * The request router of ServerManager: the longest matching location, its redirection, its
 * method table, root, alias, index and autoindex settings, the directory rules, and the
 * translation of every outcome into the response text the connection will send.
 */
module Routing {
  import opened Wrappers
  import opened Text
  import opened Utils
  import opened Paths
  import opened Records
  import opened Response

  /** The server block as its getters return it. */
  datatype ServerSettings = ServerSettings(
    root: string,
    index: string,
    autoindex: bool,
    maxBodySize: nat,
    errorPages: map<int, string>,
    locations: seq<Location>)

  /** What the router throws: HttpExceptionRedirect, HttpExceptionNotAllowed, HttpException, or a std::exception that ends the process. */
  datatype Signal =
    | Redirect(code: int, target: string)
    | NotAllowed(methods: string)
    | HttpError(code: int)
    | Fatal(status: int)

  // ================================================================ _find_best_location

  /** A location that can win: it matches and its path is longer than the initial best_len of 0. */
  predicate Candidate(loc: Location, path: string) {
    PathMatches(loc.path, path) && |loc.path| > 0
  }

  function BestLength(locs: seq<Location>, best: Option<nat>): nat {
    if best.Some? && best.value < |locs| then |locs[best.value].path| else 0
  }

  /** The index the best_len loop settles on after scanning `locs`. */
  function BestLocation(path: string, locs: seq<Location>): (r: Option<nat>)
    ensures r.Some? ==> r.value < |locs|
    decreases |locs|
  {
    if locs == [] then None
    else
      var init := locs[..|locs| - 1];
      var b := BestLocation(path, init);
      var last := locs[|locs| - 1];
      if PathMatches(last.path, path) && |last.path| > BestLength(init, b) then Some(|locs| - 1) else b
  }

  /** The winner is a candidate no other candidate is longer than, and the earliest of the longest; none wins only when no location is a candidate. */
  lemma BestLocationSpec(path: string, locs: seq<Location>)
    ensures BestLocation(path, locs).None? <==> forall i :: 0 <= i < |locs| ==> !Candidate(locs[i], path)
    ensures var r := BestLocation(path, locs);
      r.Some? ==> Candidate(locs[r.value], path)
                  && (forall i :: 0 <= i < |locs| && Candidate(locs[i], path) ==> |locs[i].path| <= |locs[r.value].path|)
                  && (forall i :: 0 <= i < r.value && Candidate(locs[i], path) ==> |locs[i].path| < |locs[r.value].path|)
  {
    BestNone(path, locs);
    BestIs(path, locs);
    BestLongest(path, locs);
    BestEarliest(path, locs);
  }

  lemma {:induction false} BestNone(path: string, locs: seq<Location>)
    ensures BestLocation(path, locs).None? <==> forall i :: 0 <= i < |locs| ==> !Candidate(locs[i], path)
    decreases |locs|
  {
    if locs != [] {
      var n := |locs| - 1;
      var init := locs[..n];
      BestNone(path, init);
      assert forall i :: 0 <= i < n ==> init[i] == locs[i];
    }
  }

  lemma {:induction false} BestIs(path: string, locs: seq<Location>)
    ensures var r := BestLocation(path, locs);
      r.Some? ==> Candidate(locs[r.value], path)
    decreases |locs|
  {
    if locs != [] {
      var n := |locs| - 1;
      var init := locs[..n];
      BestIs(path, init);
      assert forall i :: 0 <= i < n ==> init[i] == locs[i];
    }
  }
  lemma {:induction false} BestLongest(path: string, locs: seq<Location>)
    ensures var r := BestLocation(path, locs);
      r.Some? ==> forall i :: 0 <= i < |locs| && Candidate(locs[i], path) ==> |locs[i].path| <= |locs[r.value].path|
    decreases |locs|
  {
    if locs != [] {
      var n := |locs| - 1;
      var init := locs[..n];
      BestLongest(path, init);
      BestNone(path, init);
      assert forall i :: 0 <= i < n ==> init[i] == locs[i];
    }
  }

  lemma {:induction false} BestEarliest(path: string, locs: seq<Location>)
    ensures var r := BestLocation(path, locs);
      r.Some? ==> forall i :: 0 <= i < r.value && Candidate(locs[i], path) ==> |locs[i].path| < |locs[r.value].path|
    decreases |locs|
  {
    if locs != [] {
      var n := |locs| - 1;
      var init := locs[..n];
      BestEarliest(path, init);
      BestLongest(path, init);
      BestNone(path, init);
      assert forall i :: 0 <= i < n ==> init[i] == locs[i];
    }
  }

  /** Placing a location first does not let it beat a longer later candidate, and a strictly longer one always wins. */
  lemma BestLocationPrefersLonger(path: string, locs: seq<Location>, i: nat, j: nat)
    requires i < |locs| && j < |locs| && Candidate(locs[i], path) && Candidate(locs[j], path)
    requires |locs[i].path| < |locs[j].path|
    ensures BestLocation(path, locs) != Some(i)
  {
    BestLocationSpec(path, locs);
  }

  /** One more turn of the best_len loop. */
  lemma BestLocationSnoc(path: string, locs: seq<Location>, i: nat)
    requires i < |locs|
    ensures var b := BestLocation(path, locs[..i]); var p := locs[..i + 1];
      BestLocation(path, p) ==
        (if PathMatches(locs[i].path, path) && |locs[i].path| > BestLength(locs[..i], b) then Some(i) else b)
      && BestLength(p, Some(i)) == |locs[i].path| && BestLength(p, b) == BestLength(locs[..i], b)
  {
    var p := locs[..i + 1];
    assert p[..i] == locs[..i];
    assert p[i] == locs[i];
    var b := BestLocation(path, locs[..i]);
    if b.Some? {
      assert p[b.value] == locs[..i][b.value];
    }
  }

  method FindBestLocation(path: string, locs: seq<Location>) returns (best: Option<nat>)
    ensures best == BestLocation(path, locs)
  {
    best := None;
    var bestLen := 0;
    var i := 0;
    while i < |locs|
      invariant i <= |locs|
      invariant best == BestLocation(path, locs[..i])
      invariant bestLen == BestLength(locs[..i], best)
    {
      BestLocationSnoc(path, locs, i);
      if PathMatches(locs[i].path, path) && |locs[i].path| > bestLen {
        best := Some(i);
        bestLen := |locs[i].path|;
      }
      i := i + 1;
    }
    assert locs[..|locs|] == locs;
  }

  // ================================================================ _apply_redirection

  /** _apply_redirection: a location's return target redirects with 301. */
  function Redirection(loc: Option<Location>): (r: Option<Signal>)
    ensures r.Some? <==> loc.Some? && loc.value.ret != ""
    ensures r.Some? ==> r.value == Redirect(MOVED_PERMANENTLY, loc.value.ret)
  {
    if loc.Some? && loc.value.ret != "" then Some(Redirect(MOVED_PERMANENTLY, loc.value.ret)) else None
  }

  // ================================================================ _apply_location_config

  /** The reference parameters _apply_location_config updates. */
  datatype Settings = Settings(root: string, index: string, autoindex: bool, fullPath: string, usedAlias: bool)

  /**
   * _apply_location_config: an unknown method name makes method_toEnum throw runtime_error, which
   * ends the process; a method missing from the table is not allowed; an alias longer than the
   * path makes substr throw out_of_range, which ends the process as well.
   */
  function LocationSettings(loc: Option<Location>, st: Settings, path: string, methodName: string): Result<Settings, Signal> {
    if loc.None? then Success(st)
    else
      var l := loc.value;
      match MethodToEnum(methodName)
      case Failure(_) => Failure(Fatal(1))
      case Success(m) =>
        if m !in l.allowed then Failure(NotAllowed(l.printMethods))
        else if l.alias != "" && |l.path| > |path| then Failure(Fatal(1))
        else
          var root := if l.root != "" then l.root else st.root;
          var full := if l.alias != "" then l.alias + path[|l.path|..] else st.fullPath;
          var used := l.alias != "" || st.usedAlias;
          var index := if l.index != "" then l.index else st.index;
          Success(Settings(root, index, l.autoindex, full, used))
  }

  /** What a matched location changes, and when it refuses the method. */
  lemma LocationSettingsSpec(l: Location, st: Settings, path: string, methodName: string)
    ensures var r := LocationSettings(Some(l), st, path, methodName);
      (MethodToEnum(methodName).Failure? ==> r == Failure(Fatal(1)))
      && (MethodToEnum(methodName).Success? && MethodToEnum(methodName).value !in l.allowed ==>
            r == Failure(NotAllowed(l.printMethods)))
      && (r.Success? ==> MethodToEnum(methodName).Success? && MethodToEnum(methodName).value in l.allowed
                         && r.value.autoindex == l.autoindex
                         && r.value.root == (if l.root == "" then st.root else l.root)
                         && r.value.index == (if l.index == "" then st.index else l.index)
                         && (l.alias != "" ==> r.value.usedAlias && |l.path| <= |path|
                                               && r.value.fullPath == l.alias + path[|l.path|..])
                         && (l.alias == "" ==> r.value.usedAlias == st.usedAlias && r.value.fullPath == st.fullPath))
  {
  }

  /** The location's autoindex replaces the server's whichever way it is set. */
  lemma LocationOverridesAutoindex(l: Location, st: Settings, path: string, methodName: string)
    requires LocationSettings(Some(l), st, path, methodName).Success?
    ensures LocationSettings(Some(l), st, path, methodName).value.autoindex == l.autoindex
  {
  }

  method ApplyLocationConfig(loc: Option<Location>, st: Settings, path: string, methodName: string)
    returns (root: string, index: string, autoindex: bool, fullPath: string, usedAlias: bool, thrown: Option<Signal>)
    ensures thrown.Some? <==> LocationSettings(loc, st, path, methodName).Failure?
    ensures thrown.Some? ==> thrown.value == LocationSettings(loc, st, path, methodName).error
    ensures thrown.None? ==>
              Settings(root, index, autoindex, fullPath, usedAlias) == LocationSettings(loc, st, path, methodName).value
  {
    root, index, autoindex, fullPath, usedAlias, thrown := st.root, st.index, st.autoindex, st.fullPath, st.usedAlias, None;
    if loc.None? {
      return;
    }
    var l := loc.value;
    var m := MethodToEnum(methodName);
    if m.Failure? {
      thrown := Some(Fatal(1));
      return;
    }
    if m.value !in l.allowed {
      thrown := Some(NotAllowed(l.printMethods));
      return;
    }
    if l.root != "" {
      root := l.root;
    }
    if l.alias != "" {
      if |l.path| > |path| {
        thrown := Some(Fatal(1));
        return;
      }
      fullPath := l.alias + path[|l.path|..];
      usedAlias := true;
    }
    if l.index != "" {
      index := l.index;
    }
    if l.autoindex != autoindex {
      autoindex := l.autoindex;
    }
  }

  // ================================================================ _handle_directory_case

  /**
   * _handle_directory_case: the resolved path and whether the request switches to autoindex.
   * A directory asked for without its trailing slash redirects to the slashed path; otherwise
   * an existing index file is served, else the listing if autoindex is on, else 404.
   */
  function DirectoryOutcome(fullPath: string, requestPath: string, index: string, autoindex: bool, env: Env)
    : Result<(string, bool), Signal>
  {
    if TypePath(env, fullPath) != Some(Directory) then Success((fullPath, false))
    else if requestPath != "" && requestPath[|requestPath| - 1] != '/' then
      Failure(Redirect(MOVED_PERMANENTLY, requestPath + "/"))
    else if index != "" && TypePath(env, fullPath + index) == Some(RegularFile) then Success((fullPath + index, false))
    else if autoindex then Success((fullPath, true))
    else Failure(HttpError(NOT_FOUND))
  }

  lemma DirectoryOutcomeSpec(fullPath: string, requestPath: string, index: string, autoindex: bool, env: Env)
    ensures var r := DirectoryOutcome(fullPath, requestPath, index, autoindex, env);
      (TypePath(env, fullPath) != Some(Directory) ==> r == Success((fullPath, false)))
      && (r.Failure? ==> TypePath(env, fullPath) == Some(Directory)
                         && (r.error == HttpError(NOT_FOUND) || r.error == Redirect(MOVED_PERMANENTLY, requestPath + "/")))
      && (r.Failure? && r.error.Redirect? ==> |requestPath| > 0 && requestPath[|requestPath| - 1] != '/')
      && (r == Failure(HttpError(NOT_FOUND)) ==> !autoindex)
      && (r.Success? && r.value.0 != fullPath ==> r.value.0 == fullPath + index && TypePath(env, r.value.0) == Some(RegularFile))
      && (r.Success? && r.value.1 ==> autoindex && r.value.0 == fullPath)
  {
  }

  method HandleDirectoryCase(fullPath: string, requestPath: string, index: string, autoindex: bool, env: Env)
    returns (resolved: string, listing: bool, thrown: Option<Signal>)
    ensures var r := DirectoryOutcome(fullPath, requestPath, index, autoindex, env);
      (thrown.Some? <==> r.Failure?) && (thrown.Some? ==> thrown.value == r.error)
      && (thrown.None? ==> (resolved, listing) == r.value)
  {
    resolved, listing, thrown := fullPath, false, None;
    if TypePath(env, fullPath) != Some(Directory) {
      return;
    }
    if |requestPath| > 0 && requestPath[|requestPath| - 1] != '/' {
      thrown := Some(Redirect(MOVED_PERMANENTLY, requestPath + "/"));
      return;
    }
    if index != "" {
      var indexPath := fullPath + index;
      if TypePath(env, indexPath) == Some(RegularFile) {
        resolved := indexPath;
        return;
      }
    }
    if autoindex {
      listing := true;
    } else {
      thrown := Some(HttpError(NOT_FOUND));
    }
  }

  // ================================================================ resolve_path

  /** The matched location, if any. */
  function MatchedLocation(path: string, locs: seq<Location>): Option<Location> {
    var best := BestLocation(path, locs);
    if best.Some? then Some(locs[best.value]) else None
  }

  /**
   * resolve_path: the request's resolved file path, its matched location and its autoindex flag,
   * or the signal that interrupts resolution. `server` is None when the client is not mapped to
   * a listening socket.
   */
  function Resolve(req: Request, server: Option<ServerSettings>, env: Env): Result<Request, Signal> {
    if server.None? then Failure(HttpError(INTERNAL_SERVER_ERROR))
    else
      var s := server.value;
      var path := Normalized(CleanedPath(req.path));
      var loc := MatchedLocation(path, s.locations);
      match Redirection(loc)
      case Some(sig) => Failure(sig)
      case None =>
        match LocationSettings(loc, Settings(s.root, s.index, s.autoindex, "", false), path, req.methodName)
        case Failure(e) => Failure(e)
        case Success(st) =>
          var full := if st.usedAlias then st.fullPath else st.root + path;
          match DirectoryOutcome(full, path, st.index, st.autoindex, env)
          case Failure(e) => Failure(e)
          case Success(d) => Success(req.(path := d.0, matched := loc, autoindex := req.autoindex || d.1))
  }

  /** A location's return target redirects before its method table is consulted. */
  lemma ResolveRedirectsFirst(req: Request, s: ServerSettings, env: Env)
    requires var loc := MatchedLocation(Normalized(CleanedPath(req.path)), s.locations);
      loc.Some? && loc.value.ret != ""
    ensures Resolve(req, Some(s), env) ==
              Failure(Redirect(MOVED_PERMANENTLY, MatchedLocation(Normalized(CleanedPath(req.path)), s.locations).value.ret))
  {
  }

  /** Without an alias the file path is the root (the location's, else the server's) followed by the normalised request path. */
  lemma ResolveUnderRoot(req: Request, s: ServerSettings, env: Env)
    requires var path := Normalized(CleanedPath(req.path)); var loc := MatchedLocation(path, s.locations);
      (loc.None? || loc.value.alias == "") && Resolve(req, Some(s), env).Success?
    ensures var path := Normalized(CleanedPath(req.path)); var loc := MatchedLocation(path, s.locations);
      var root := if loc.Some? && loc.value.root != "" then loc.value.root else s.root;
      var r := Resolve(req, Some(s), env).value;
      r.matched == loc
      && (TypePath(env, root + path) != Some(Directory) ==> r.path == root + path)
  {
  }

  /** With an alias the file path is the alias followed by the request path past the location's own path. */
  lemma ResolveThroughAlias(req: Request, s: ServerSettings, env: Env)
    requires var path := Normalized(CleanedPath(req.path)); var loc := MatchedLocation(path, s.locations);
      loc.Some? && loc.value.alias != "" && Resolve(req, Some(s), env).Success?
    ensures var path := Normalized(CleanedPath(req.path)); var l := MatchedLocation(path, s.locations).value;
      var full := l.alias + path[|l.path|..];
      |l.path| <= |path| && (TypePath(env, full) != Some(Directory) ==> Resolve(req, Some(s), env).value.path == full)
  {
  }

  /** A request for a directory without its trailing slash is redirected to the slashed path. */
  lemma ResolveDirectoryRedirect(req: Request, s: ServerSettings, env: Env)
    requires var path := Normalized(CleanedPath(req.path)); var loc := MatchedLocation(path, s.locations);
      var st := LocationSettings(loc, Settings(s.root, s.index, s.autoindex, "", false), path, req.methodName);
      Redirection(loc).None? && st.Success?
      && TypePath(env, if st.value.usedAlias then st.value.fullPath else st.value.root + path) == Some(Directory)
      && path != "" && path[|path| - 1] != '/'
    ensures var path := Normalized(CleanedPath(req.path));
      Resolve(req, Some(s), env) == Failure(Redirect(MOVED_PERMANENTLY, path + "/"))
  {
  }

  /** The location "/img/" with an alias, asked for as "/img": path_matches accepts it and substr then runs past the end. */
  lemma AliasPastEndIsFatal(l: Location, st: Settings)
    requires l.path == "/img/" && l.alias != "" && GET in l.allowed
    ensures PathMatches(l.path, "/img")
    ensures LocationSettings(Some(l), st, "/img", "GET") == Failure(Fatal(1))
  {
  }

  method ResolvePath(req: Request, server: Option<ServerSettings>, env: Env) returns (r: Result<Request, Signal>)
    ensures r == Resolve(req, server, env)
  {
    if server.None? {
      return Failure(HttpError(INTERNAL_SERVER_ERROR));
    }
    var s := server.value;
    var cleaned := CleanPath(req.path);
    var path := PathNormalization(cleaned);
    var best := FindBestLocation(path, s.locations);
    var loc: Option<Location> := if best.Some? then Some(s.locations[best.value]) else None;
    var redirect := Redirection(loc);
    if redirect.Some? {
      return Failure(redirect.value);
    }
    var root, index, autoindex, fullPath, usedAlias, thrown :=
      ApplyLocationConfig(loc, Settings(s.root, s.index, s.autoindex, "", false), path, req.methodName);
    if thrown.Some? {
      return Failure(thrown.value);
    }
    if !usedAlias {
      fullPath := root + path;
    }
    var resolved, listing, dirThrown := HandleDirectoryCase(fullPath, path, index, autoindex, env);
    if dirThrown.Some? {
      return Failure(dirThrown.value);
    }
    var routed := req.(matched := loc);
    if listing {
      routed := routed.(autoindex := true);
    }
    r := Success(routed.(path := resolved));
  }

  // ================================================================ prepare_response / prepare_error_response

  /** What the client gets: a reply, a reply that first drains the request body, the process ending, or an HttpException nothing catches. */
  datatype Prepared =
    | Reply(text: string)
    | ReplyAfterDrain(text: string)
    | Exit(status: int)
    | Uncaught(code: int)

  /** The replies the reader writes by hand: a status line, an HTML type, Connection: close, and a heading as the body. */
  function FixedReply(status: string, heading: string): string {
    status + "\r\nContent-Type: text/html\r\n" + "Connection: close" + "\r\n\r\n" + heading
  }

  const BAD_REQUEST_STATUS: string := "HTTP/1.1 400 Bad Request"
  const BAD_REQUEST_HEADING: string := "<h1>400 Bad Request</h1>"
  const PAYLOAD_TOO_LARGE_STATUS: string := "HTTP/1.1 413 Payload Too Large"
  const PAYLOAD_TOO_LARGE_HEADING: string := "<h1>413 Payload Too Large</h1>"
  const BAD_REQUEST_RESPONSE: string := FixedReply(BAD_REQUEST_STATUS, BAD_REQUEST_HEADING)
  const PAYLOAD_TOO_LARGE_RESPONSE: string := FixedReply(PAYLOAD_TOO_LARGE_STATUS, PAYLOAD_TOO_LARGE_HEADING)

  /** The int code as the short getPathErrorPage takes. */
  function ShortOf(code: int): int {
    (code + 0x8000) % 0x1_0000 - 0x8000
  }

  /** getPathErrorPage. */
  function PathErrorPage(s: ServerSettings, code: int): string {
    var key := ShortOf(code);
    if key in s.errorPages then s.errorPages[key] else ""
  }

  /**
   * prepare_error_response: a configured page is read from under www/ (an unreadable one raises
   * 403, which escapes); without one, 500 ends the process, 400 gets the fixed reply, every other
   * code the default error page.
   */
  function ErrorResponse(server: Option<ServerSettings>, code: int, env: Env, reason: int -> string): Prepared {
    if server.None? then Reply(Wire(ErrorPageFields(INTERNAL_SERVER_ERROR, reason)))
    else
      var page := PathErrorPage(server.value, code);
      if page != "" then
        match TargetOutcome(code, WWW_ROOT + page, env, reason)
        case Failure(c) => Uncaught(c)
        case Success(f) => Reply(Wire(f))
      else if code == INTERNAL_SERVER_ERROR then Exit(2)
      else if code == BAD_REQUEST then Reply(BAD_REQUEST_RESPONSE)
      else Reply(Wire(ErrorPageFields(code, reason)))
  }

  /** What the client reads from a default error page: its status line, the page itself, its length, and Connection: close. */
  predicate PageReply(w: string, code: int, reason: int -> string) {
    var page := DefaultErrorPage(code, reason(code));
    '\n' !in reason(code) ==>
      ReadsAs(w, "HTTP/1.1 " + SizeToString(code) + " " + reason(code), page)
      && HasHeader(w, "Content-Type", "text/html")
      && HasHeader(w, "Content-Length", NatToString(|page|))
      && HasHeader(w, "Connection", "close")
  }

  /** What reaches the client for an error with no page configured. */
  predicate DefaultErrorReply(r: Prepared, code: int, reason: int -> string) {
    (code == INTERNAL_SERVER_ERROR <==> r == Exit(2))
    && (code == BAD_REQUEST ==>
          r.Reply? && ReadsAs(r.text, BAD_REQUEST_STATUS, BAD_REQUEST_HEADING)
          && HasHeader(r.text, "Connection", "close"))
    && (code != INTERNAL_SERVER_ERROR && code != BAD_REQUEST ==> r.Reply? && PageReply(r.text, code, reason))
  }

  /** The default error page's text reads as that page, with its length, closing the connection. */
  lemma DefaultPageReads(code: int, reason: int -> string)
    ensures PageReply(Wire(ErrorPageFields(code, reason)), code, reason)
  {
    if '\n' !in reason(code) {
      var f := ErrorPageFields(code, reason);
      ErrorPageFieldsSingleLine(code, reason);
      WireReadsAs(f);
      assert StatusLine(f) == "HTTP/1.1 " + SizeToString(code) + " " + reason(code);
    }
  }

  /** The fixed 400 and 413 replies read as their status line and heading, closing the connection. */
  lemma FixedRepliesRead()
    ensures ReadsAs(BAD_REQUEST_RESPONSE, BAD_REQUEST_STATUS, BAD_REQUEST_HEADING)
    ensures HasHeader(BAD_REQUEST_RESPONSE, "Connection", "close")
    ensures ReadsAs(PAYLOAD_TOO_LARGE_RESPONSE, PAYLOAD_TOO_LARGE_STATUS, PAYLOAD_TOO_LARGE_HEADING)
    ensures HasHeader(PAYLOAD_TOO_LARGE_RESPONSE, "Connection", "close")
  {
    FixedReplyReads(BAD_REQUEST_STATUS, BAD_REQUEST_HEADING);
    FixedReplyReads(PAYLOAD_TOO_LARGE_STATUS, PAYLOAD_TOO_LARGE_HEADING);
  }

  /** A hand-written reply reads as its status line and heading, and its head holds Connection: close. */
  lemma FixedReplyReads(status: string, heading: string)
    requires |status| > 0 && status[0] != '\r' && '\n' !in status
    ensures ReadsAs(FixedReply(status, heading), status, heading) && HasHeader(FixedReply(status, heading), "Connection", "close")
  {
    var ls := [status, HeaderLine("Content-Type", "text/html"), HeaderLine("Connection", "close")];
    var w := FixedReply(status, heading);
    assert w == Lines(ls) + CRLF + heading by {
      FixedReplyLines(status);
      FixedReplyHead();
    }
    assert ReadsAs(Lines(ls) + CRLF + heading, status, heading) && HeadOf(Lines(ls) + CRLF + heading) == Lines(ls)
      && InStr(CRLF + HeaderLine("Connection", "close") + CRLF, Lines(ls)) by {
      assert forall i :: 0 <= i < |ls| ==> SafeLine(ls[i]);
      BlockReadsAs(ls, heading);
      LinesHold(ls, 2);
    }
  }

  /** The lines of a hand-written reply as one text. */
  lemma FixedReplyLines(status: string)
    ensures Lines([status, HeaderLine("Content-Type", "text/html"), HeaderLine("Connection", "close")])
      == status + (CRLF + HeaderLine("Content-Type", "text/html") + CRLF + HeaderLine("Connection", "close") + CRLF)
  {
    var a, b := HeaderLine("Content-Type", "text/html"), HeaderLine("Connection", "close");
    var ls := [status, a, b];
    assert ls[1..] == [a, b] && [a, b][1..] == [b] && [b][1..] == [];
    assert Lines([b]) == b + CRLF;
    assert Lines([a, b]) == a + CRLF + (b + CRLF);
    assert Lines(ls) == status + CRLF + (a + CRLF + (b + CRLF));
  }

  /** The header text of a hand-written reply is those two header lines. */
  lemma FixedReplyHead()
    ensures "\r\nContent-Type: text/html\r\n" + "Connection: close" + "\r\n"
      == CRLF + HeaderLine("Content-Type", "text/html") + CRLF + HeaderLine("Connection", "close") + CRLF
  {
  }

  /**
   * prepare_error_response without a configured page: 500 ends the process, 400 gets the fixed
   * reply, and any other code its default page, which the client reads with the code in the status
   * line, its exact length, and the connection closing.
   */
  lemma ErrorResponseCases(s: ServerSettings, code: int, env: Env, reason: int -> string)
    requires PathErrorPage(s, code) == ""
    ensures var r := ErrorResponse(Some(s), code, env, reason);
      DefaultErrorReply(r, code, reason)
      && (code == BAD_REQUEST ==> r == Reply(BAD_REQUEST_RESPONSE))
      && (code != INTERNAL_SERVER_ERROR && code != BAD_REQUEST ==> r == Reply(Wire(ErrorPageFields(code, reason))))
  {
    FixedRepliesRead();
    DefaultPageReads(code, reason);
  }

  /** A configured page is served with the error's code when it is readable. */
  lemma ErrorResponseConfiguredPage(s: ServerSettings, code: int, env: Env, reason: int -> string)
    requires PathErrorPage(s, code) != "" && !(301 <= code <= 308)
    ensures var target := WWW_ROOT + PathErrorPage(s, code); var r := ErrorResponse(Some(s), code, env, reason);
      (target in env.contents ==> r.Reply? && r == Reply(Wire(WithBody(Initial(), code, reason, "text/html", env.contents[target]))))
      && (target !in env.contents ==> r == Uncaught(FORBIDDEN))
  {
  }

  /** prepare_response: the parser's verdict, then routing, then the response for the request, each failure translated. */
  function PrepareOutcome(parsed: Request, server: Option<ServerSettings>, env: Env, reason: int -> string): Prepared {
    if parsed.ret != OK then ErrorResponse(server, parsed.ret, env, reason)
    else
      match Resolve(parsed, server, env)
      case Failure(Redirect(code, target)) =>
        (match TargetOutcome(code, target, env, reason)
         case Failure(c) => Uncaught(c)
         case Success(f) => Reply(Wire(f)))
      case Failure(NotAllowed(methods)) =>
        ReplyAfterDrain(Wire(ErrorPageFields(METHOD_NOT_ALLOWED, reason).(allow := methods)))
      case Failure(HttpError(c)) => ErrorResponse(server, c, env, reason)
      case Failure(Fatal(status)) => Exit(status)
      case Success(req) =>
        match RequestOutcome(req, env, reason)
        case Failure(c) => ErrorResponse(server, c, env, reason)
        case Success(f) => Reply(Wire(f))
  }

  /**
   * A request the parser rejects is answered as that error: without a configured page the client
   * gets what DefaultErrorReply says, and without a server the default 500 page.
   */
  lemma PrepareParseError(parsed: Request, server: Option<ServerSettings>, env: Env, reason: int -> string)
    requires parsed.ret != OK
    ensures var r := PrepareOutcome(parsed, server, env, reason);
      r == ErrorResponse(server, parsed.ret, env, reason)
      && (server.Some? && PathErrorPage(server.value, parsed.ret) == "" ==> DefaultErrorReply(r, parsed.ret, reason))
      && (server.None? ==> r.Reply? && PageReply(r.text, INTERNAL_SERVER_ERROR, reason))
  {
    if server.Some? {
      if PathErrorPage(server.value, parsed.ret) == "" {
        ErrorResponseCases(server.value, parsed.ret, env, reason);
      }
    } else {
      DefaultPageReads(INTERNAL_SERVER_ERROR, reason);
    }
  }

  /** Every redirect the router raises reaches the client as an empty 301 naming the target. */
  lemma PrepareRedirect(parsed: Request, s: ServerSettings, env: Env, reason: int -> string)
    requires parsed.ret == OK && Resolve(parsed, Some(s), env).Failure? && Resolve(parsed, Some(s), env).error.Redirect?
    ensures var target := Resolve(parsed, Some(s), env).error.target;
      PrepareOutcome(parsed, Some(s), env, reason) == Reply(Wire(Redirected(Initial(), MOVED_PERMANENTLY, target, reason)))
  {
    var r := Resolve(parsed, Some(s), env);
    var path := Normalized(CleanedPath(parsed.path));
    var loc := MatchedLocation(path, s.locations);
    if Redirection(loc).None? {
      var st := LocationSettings(loc, Settings(s.root, s.index, s.autoindex, "", false), path, parsed.methodName);
      if st.Success? {
        var full := if st.value.usedAlias then st.value.fullPath else st.value.root + path;
        DirectoryOutcomeSpec(full, path, st.value.index, st.value.autoindex, env);
      }
    }
    assert r.error.code == MOVED_PERMANENTLY;
  }

  /** A refused method gets the default 405 page listing the allowed methods, subject to draining the body. */
  lemma PrepareNotAllowed(parsed: Request, s: ServerSettings, env: Env, reason: int -> string)
    requires parsed.ret == OK
    requires var path := Normalized(CleanedPath(parsed.path)); var loc := MatchedLocation(path, s.locations);
      loc.Some? && loc.value.ret == "" && MethodToEnum(parsed.methodName).Success?
      && MethodToEnum(parsed.methodName).value !in loc.value.allowed
    ensures var loc := MatchedLocation(Normalized(CleanedPath(parsed.path)), s.locations).value;
      PrepareOutcome(parsed, Some(s), env, reason)
        == ReplyAfterDrain(Wire(ErrorPageFields(METHOD_NOT_ALLOWED, reason).(allow := loc.printMethods)))
  {
  }
}
