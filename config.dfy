/**
 * ServerUnit: one server block of the configuration. Its setters validate the directive tokens
 * the configuration reader hands them and store the values; setLocation walks the tokens of a
 * location block.
 */
module Config {
  import opened Wrappers
  import opened Text
  import opened Utils
  import opened Records

  /** Why a setter rejects its tokens (the ErrorException texts are not part of this model). */
  datatype ConfigError =
    | MissingSemicolon(token: string)
    | EraseOutOfRange
    | StoiFailure
    | BadValue(directive: string)
    | Duplicate(directive: string)
    | CgiBinDirective(directive: string)
    | IncompleteCgi
    | UnknownToken(token: string)
    | InvalidLocation
    | CgiNotExecutable
    | Exit(status: int)

  // Directive keywords (their header is not part of this model; only their distinctness matters).
  const ROOT_KEY: string := "root"
  const METHODS_KEY: string := "methods"
  const ALLOW_METHODS_KEY: string := "allow_methods"
  const AUTOINDEX_KEY: string := "autoindex"
  const INDEX_KEY: string := "index"
  const RETURN_KEY: string := "return"
  const ALIAS_KEY: string := "alias"
  const CGI_KEY: string := "cgi"
  const CMBS_KEY: string := "client_max_body_size"
  const CGI_BIN_PATH: string := "/cgi-bin"
  const PORT_KEY: string := "listen"
  const ERROR_PAGE_KEY: string := "error_page"

  /** The reason phrase statusCodeString gives a code it does not know. */
  const UNDEFINED: string := "Undefined"

  // ================================================================ checkSemicolon

  /**
   * checkSemicolon: the token must end in ';', which is removed. On "" rfind and size() - 1 are
   * both npos, so the test passes and erase(npos) raises out_of_range.
   */
  function CheckSemicolon(token: string): (r: Result<string, ConfigError>)
    ensures r.Success? <==> |token| > 0 && token[|token| - 1] == ';'
    ensures r.Success? ==> r.value + ";" == token
    ensures token == "" ==> r == Failure(EraseOutOfRange)
  {
    if token == "" then Failure(EraseOutOfRange)
    else match RFindChar(token, ';', |token| - 1)
      case None => Failure(MissingSemicolon(token))
      case Some(p) =>
        if p != |token| - 1 then Failure(MissingSemicolon(token))
        else assert token == token[..p] + [token[p]]; Success(token[..p])
  }

  /** Appending the ';' is undone by checkSemicolon. */
  lemma CheckSemicolonRoundTrip(s: string)
    ensures CheckSemicolon(s + ";") == Success(s)
  {
    var t := s + ";";
    assert t[|t| - 1] == ';';
    assert CheckSemicolon(t).value + ";" == t;
  }

  // ================================================================ single-value setters

  /** setPort: digits only, 1..65636 as read by ft_stoi, then truncated to uint16_t. */
  function PortOutcome(token: string): Result<int, ConfigError> {
    match CheckSemicolon(token)
    case Failure(e) => Failure(e)
    case Success(v) =>
      if !AllDigits(v) then Failure(BadValue(PORT_KEY))
      else match FtStoi(v)
        case Failure(_) => Failure(StoiFailure)
        case Success(port) =>
          if port < 1 || port > 65636 then Failure(BadValue(PORT_KEY)) else Success(port % 65536)
  }

  /** The ports setPort accepts, and the uint16_t value it stores for them. */
  lemma PortOutcomeSpec(token: string)
    ensures PortOutcome(token).Success? <==>
              |token| > 0 && token[|token| - 1] == ';' && |token| <= 11 && AllDigits(token[..|token| - 1])
              && 1 <= DigitsValue(token[..|token| - 1]) <= 65636
    ensures PortOutcome(token).Success? ==>
              |token| > 0 && AllDigits(token[..|token| - 1]) && 0 <= PortOutcome(token).value < 65536
              && PortOutcome(token).value == DigitsValue(token[..|token| - 1]) % 65536
  {
    if CheckSemicolon(token).Success? {
      var v := token[..|token| - 1];
      assert CheckSemicolon(token).value == v by {
        assert CheckSemicolon(token).value + ";" == v + ";";
      }
    }
  }

  /** A port between 65536 and 65636 passes the bound and wraps around. */
  lemma PortWrapsAbove65535(token: string)
    requires token == "65636;"
    ensures PortOutcome(token) == Success(100)
  {
    var v := "65636";
    assert CheckSemicolon(token).value == v by {
      assert CheckSemicolon(token).value + ";" == v + ";";
    }
    assert AllDigits(v);
    assert "6"[..0] == "" && DigitsValue("6") == 6;
    assert "65"[..1] == "6" && DigitsValue("65") == 65;
    assert "656"[..2] == "65" && DigitsValue("656") == 656;
    assert "6563"[..3] == "656" && DigitsValue("6563") == 6563;
    assert v[..4] == "6563" && DigitsValue(v) == 65636;
  }

  /** setClientMaxBodySize: digits only and not 0 as read by ft_stoi. */
  function BodySizeOutcome(token: string): Result<nat, ConfigError> {
    match CheckSemicolon(token)
    case Failure(e) => Failure(e)
    case Success(v) =>
      if !AllDigits(v) then Failure(BadValue(CMBS_KEY))
      else match FtStoi(v)
        case Failure(_) => Failure(StoiFailure)
        case Success(size) => if size == 0 then Failure(BadValue(CMBS_KEY)) else Success(size)
  }

  lemma BodySizeOutcomeSpec(token: string)
    ensures var r := BodySizeOutcome(token);
      r.Success? <==> (CheckSemicolon(token).Success? && |CheckSemicolon(token).value| <= 10
                       && AllDigits(CheckSemicolon(token).value) && DigitsValue(CheckSemicolon(token).value) != 0)
    ensures var r := BodySizeOutcome(token);
      r.Success? ==> 0 < r.value <= INT_MAX
  {
  }

  /** setIndex: an index may not start with '/' (an empty one passes: index[0] is then '\0'). */
  function IndexOutcome(token: string): Result<string, ConfigError> {
    match CheckSemicolon(token)
    case Failure(e) => Failure(e)
    case Success(v) => if |v| > 0 && v[0] == '/' then Failure(BadValue(INDEX_KEY)) else Success(v)
  }

  lemma IndexOutcomeSpec(token: string)
    ensures var r := IndexOutcome(token);
      (r.Success? <==> CheckSemicolon(token).Success? && !(|token| > 1 && token[0] == '/'))
      && (r.Success? ==> r.value + ";" == token)
  {
    if CheckSemicolon(token).Success? && |token| > 1 {
      assert CheckSemicolon(token).value[0] == (CheckSemicolon(token).value + ";")[0];
    }
  }

  /** setAutoindex: "on" sets the flag, "off" leaves it as it was, anything else is rejected. */
  function AutoindexOutcome(token: string, current: bool): Result<bool, ConfigError> {
    match CheckSemicolon(token)
    case Failure(e) => Failure(e)
    case Success(v) =>
      if v != "on" && v != "off" then Failure(BadValue(AUTOINDEX_KEY))
      else if v == "on" then Success(true) else Success(current)
  }

  lemma AutoindexOutcomeSpec(token: string, current: bool)
    ensures AutoindexOutcome(token, current).Success? <==> token == "on;" || token == "off;"
    ensures token == "on;" ==> AutoindexOutcome(token, current) == Success(true)
    ensures token == "off;" ==> AutoindexOutcome(token, current) == Success(current)
  {
    CheckSemicolonRoundTrip("on");
    CheckSemicolonRoundTrip("off");
    if CheckSemicolon(token).Success? {
      var v := CheckSemicolon(token).value;
      assert v + ";" == token;
    }
  }

  // ================================================================ error pages

  /** The codes initErrorPages registers (505 twice, 504 never). */
  const INITIAL_ERROR_CODES: seq<int> :=
    [301, 302, 400, 401, 402, 403, 404, 405, 406, 500, 501, 502, 503, 505, 505]

  /** The pair of tokens of one error_page directive, or why it is rejected. */
  function ErrorPagePair(codeToken: string, pathToken: string, root: string, env: Env, reason: int -> string)
    : Result<(int, string), ConfigError>
  {
    if !AllDigits(codeToken) || |codeToken| != 3 then Failure(BadValue(ERROR_PAGE_KEY))
    else
      var code := DigitsValue(codeToken);
      if reason(code) == UNDEFINED || code < 400 then Failure(BadValue(ERROR_PAGE_KEY))
      else match CheckSemicolon(pathToken)
        case Failure(e) => Failure(e)
        case Success(path) =>
          if TypePath(env, path) != Some(Directory)
             && (TypePath(env, root + path) != Some(RegularFile) || root + path !in env.contents)
          then Failure(BadValue(ERROR_PAGE_KEY))
          else Success((code, path))
  }

  /**
   * The loop of setErrorPages from pair index k: each accepted pair is stored before the next is
   * examined, so a rejection keeps the pairs before it.
   */
  function ErrorPagesFrom(pages: map<int, string>, tokens: seq<string>, k: nat, root: string, env: Env,
                          reason: int -> string): (map<int, string>, Option<ConfigError>)
    requires |tokens| % 2 == 0 && 2 * k <= |tokens|
    decreases |tokens| - 2 * k
  {
    if 2 * k == |tokens| then (pages, None)
    else match ErrorPagePair(tokens[2 * k], tokens[2 * k + 1], root, env, reason)
      case Failure(e) => (pages, Some(e))
      case Success(p) => ErrorPagesFrom(pages[p.0 := p.1], tokens, k + 1, root, env, reason)
  }

  /** setErrorPages: nothing for no tokens, an odd count is rejected. */
  function ErrorPagesOutcome(pages: map<int, string>, tokens: seq<string>, root: string, env: Env,
                             reason: int -> string): (map<int, string>, Option<ConfigError>)
  {
    if tokens == [] then (pages, None)
    else if |tokens| % 2 != 0 then (pages, Some(BadValue(ERROR_PAGE_KEY)))
    else ErrorPagesFrom(pages, tokens, 0, root, env, reason)
  }

  /** setErrorPages succeeds exactly when every pair is acceptable; it never removes a code. */
  lemma {:induction false} ErrorPagesFromSpec(pages: map<int, string>, tokens: seq<string>, k: nat, root: string,
                                              env: Env, reason: int -> string)
    requires |tokens| % 2 == 0 && 2 * k <= |tokens|
    ensures var r := ErrorPagesFrom(pages, tokens, k, root, env, reason);
      (r.1.None? <==> forall m :: k <= m < |tokens| / 2 ==>
                        ErrorPagePair(tokens[2 * m], tokens[2 * m + 1], root, env, reason).Success?)
      && (forall c :: c in pages ==> c in r.0)
      && (forall c :: c in r.0 && c !in pages ==> 400 <= c <= 999)
    decreases |tokens| - 2 * k
  {
    if 2 * k < |tokens| {
      var pr := ErrorPagePair(tokens[2 * k], tokens[2 * k + 1], root, env, reason);
      ErrorPagePairRange(tokens[2 * k], tokens[2 * k + 1], root, env, reason);
      if pr.Success? {
        ErrorPagesFromSpec(pages[pr.value.0 := pr.value.1], tokens, k + 1, root, env, reason);
      }
    }
  }

  /** The m-th pair of an error_page directive, as ErrorPagePair reads it. */
  function PairAt(tokens: seq<string>, m: nat, root: string, env: Env, reason: int -> string)
    : Result<(int, string), ConfigError>
    requires 2 * m + 1 < |tokens|
  {
    ErrorPagePair(tokens[2 * m], tokens[2 * m + 1], root, env, reason)
  }

  /** No accepted pair of the directive after the m-th one has the code c. */
  predicate NoLaterPair(tokens: seq<string>, m: nat, c: int, root: string, env: Env, reason: int -> string)
    requires |tokens| % 2 == 0
  {
    forall m' :: m < m' < |tokens| / 2 ==>
      PairAt(tokens, m', root, env, reason).Success? ==> PairAt(tokens, m', root, env, reason).value.0 != c
  }

  /** getPathErrorPage's lookup: the page stored for the code, or "". */
  function PageFor(pages: map<int, string>, code: int): string {
    if code in pages then pages[code] else ""
  }

  /** The rest of the loop keeps the page of a code that no later pair names. */
  lemma {:induction false} ErrorPagesFromKeeps(pages: map<int, string>, tokens: seq<string>, k: nat, c: int,
                                               root: string, env: Env, reason: int -> string)
    requires |tokens| % 2 == 0 && 2 * k <= |tokens| && c in pages
    requires forall m' :: k <= m' < |tokens| / 2 ==>
      PairAt(tokens, m', root, env, reason).Success? ==> PairAt(tokens, m', root, env, reason).value.0 != c
    ensures var r := ErrorPagesFrom(pages, tokens, k, root, env, reason); c in r.0 && r.0[c] == pages[c]
    decreases |tokens| - 2 * k
  {
    if 2 * k < |tokens| {
      var pr := PairAt(tokens, k, root, env, reason);
      if pr.Success? {
        ErrorPagesFromKeeps(pages[pr.value.0 := pr.value.1], tokens, k + 1, c, root, env, reason);
      }
    }
  }

  /** Once the loop from pair k accepts every pair, each pair's code maps to its path unless a later pair names the code again. */
  lemma {:induction false} ErrorPagesFromStores(pages: map<int, string>, tokens: seq<string>, k: nat, m: nat,
                                                root: string, env: Env, reason: int -> string)
    requires |tokens| % 2 == 0 && 2 * k <= |tokens| && k <= m < |tokens| / 2
    ensures var r := ErrorPagesFrom(pages, tokens, k, root, env, reason); var p := PairAt(tokens, m, root, env, reason);
      r.1.None? && p.Success? && NoLaterPair(tokens, m, p.value.0, root, env, reason) ==>
        PageFor(r.0, p.value.0) == p.value.1
    decreases |tokens| - 2 * k
  {
    var pr := PairAt(tokens, k, root, env, reason);
    var p := PairAt(tokens, m, root, env, reason);
    if pr.Success? {
      if m == k {
        if NoLaterPair(tokens, m, p.value.0, root, env, reason) {
          ErrorPagesFromKeeps(pages[pr.value.0 := pr.value.1], tokens, k + 1, p.value.0, root, env, reason);
        }
      } else {
        ErrorPagesFromStores(pages[pr.value.0 := pr.value.1], tokens, k + 1, m, root, env, reason);
      }
    }
  }

  /**
   * setErrorPages followed by getPathErrorPage: after an accepted directive, the code of each pair
   * gives that pair's path unless a later pair names the same code.
   */
  lemma ErrorPagesOutcomeStores(pages: map<int, string>, tokens: seq<string>, m: nat, root: string, env: Env,
                                reason: int -> string)
    requires 2 * m + 1 < |tokens|
    ensures var r := ErrorPagesOutcome(pages, tokens, root, env, reason); var p := PairAt(tokens, m, root, env, reason);
      r.1.None? ==> p.Success? && (NoLaterPair(tokens, m, p.value.0, root, env, reason) ==> PageFor(r.0, p.value.0) == p.value.1)
  {
    if |tokens| % 2 == 0 {
      ErrorPagesFromSpec(pages, tokens, 0, root, env, reason);
      ErrorPagesFromStores(pages, tokens, 0, m, root, env, reason);
    }
  }

  /** An accepted pair has a code from 400 to 999 and the path without its ';'. */
  lemma ErrorPagePairRange(codeToken: string, pathToken: string, root: string, env: Env, reason: int -> string)
    ensures var r := ErrorPagePair(codeToken, pathToken, root, env, reason);
      r.Success? ==> 400 <= r.value.0 <= 999 && r.value.1 + ";" == pathToken
  {
    if AllDigits(codeToken) && |codeToken| == 3 {
      DigitsBelow1000(codeToken);
    }
  }

  /** Three digits make a number below 1000. */
  lemma DigitsBelow1000(s: string)
    requires AllDigits(s) && |s| == 3
    ensures DigitsValue(s) <= 999
  {
    var a, b := s[..1], s[..2];
    assert b[..1] == a && a[..0] == [] && s[..|s| - 1] == b && b[..|b| - 1] == a;
    assert DigitsValue(a) <= 9;
    assert DigitsValue(b) <= 99;
  }

  // ================================================================ setLocation

  /** What setLocation passes to a Location's setters; maxBody is the token, or the server's size. */
  datatype MaxBody = Given(token: string) | Inherited(size: nat)

  datatype LocationBlock = LocationBlock(
    path: string,
    root: string,
    methods: Option<seq<string>>,
    autoindex: Option<string>,
    index: string,
    ret: string,
    alias: string,
    cgi: map<string, string>,
    maxBody: MaxBody)

  /** new_location before the walk; the server's body size stands until a directive replaces it. */
  function FreshBlock(path: string, serverMax: nat): LocationBlock {
    LocationBlock(path, "", None, None, "", "", "", map[], Inherited(serverMax))
  }

  /** The inner loop of the methods directive, from token i: collect up to a token holding ';'. */
  function CollectMethods(tokens: seq<string>, i: nat, acc: seq<string>): (r: Result<(nat, seq<string>), ConfigError>)
    requires i < |tokens|
    ensures r.Success? ==> i <= r.value.0 < |tokens|
    decreases |tokens| - i
  {
    if ';' in tokens[i] then
      match CheckSemicolon(tokens[i])
      case Failure(e) => Failure(e)
      case Success(v) => Success((i, acc + [v]))
    else if i + 1 >= |tokens| then Failure(MissingSemicolon(tokens[i]))
    else CollectMethods(tokens, i + 1, acc + [tokens[i]])
  }

  /** A cgi handler: an extension of two or more characters starting with '.', and a path "./x...". */
  predicate GoodCgiEntry(ext: string, script: string) {
    |ext| >= 2 && ext[0] == '.' && |script| >= 1
  }

  /** One turn of setLocation's loop at token i: the index of the next directive and the block. */
  function Step(path: string, tokens: seq<string>, i: nat, b: LocationBlock, env: Env)
    : (r: Result<(nat, LocationBlock), ConfigError>)
    requires i < |tokens|
    ensures r.Success? ==> i < r.value.0 && r.value.1.path == b.path
    ensures r.Success? ==> r.value.1.root == b.root || TypePath(env, r.value.1.root) == Some(Directory)
    ensures r.Success? ==> r.value.1.index == b.index || r.value.1.index == "" || r.value.1.index[0] != '/'
    ensures r.Success? ==> forall ext :: ext in r.value.1.cgi ==>
              (ext in b.cgi && r.value.1.cgi[ext] == b.cgi[ext]) || GoodCgiEntry(ext, r.value.1.cgi[ext])
  {
    var t := tokens[i];
    var more := i + 1 < |tokens|;
    if t == ROOT_KEY && more then
      if b.root != "" then Failure(Duplicate(ROOT_KEY))
      else match CheckSemicolon(tokens[i + 1])
        case Failure(e) => Failure(e)
        case Success(v) => if TypePath(env, v) == Some(Directory) then Success((i + 2, b.(root := v))) else Failure(Exit(1))
    else if (t == ALLOW_METHODS_KEY || t == METHODS_KEY) && more then
      if b.methods.Some? then Failure(Duplicate(METHODS_KEY))
      else match CollectMethods(tokens, i + 1, [])
        case Failure(e) => Failure(e)
        case Success(p) => Success((p.0 + 1, b.(methods := Some(p.1))))
    else if t == AUTOINDEX_KEY && more then
      if path == CGI_BIN_PATH then Failure(CgiBinDirective(AUTOINDEX_KEY))
      else if b.autoindex.Some? then Failure(Duplicate(AUTOINDEX_KEY))
      else match CheckSemicolon(tokens[i + 1])
        case Failure(e) => Failure(e)
        case Success(v) => Success((i + 2, b.(autoindex := Some(v))))
    else if t == INDEX_KEY && more then
      if b.index != "" then Failure(Duplicate(INDEX_KEY))
      else match CheckSemicolon(tokens[i + 1])
        case Failure(e) => Failure(e)
        case Success(v) => if |v| > 0 && v[0] == '/' then Failure(BadValue(INDEX_KEY)) else Success((i + 2, b.(index := v)))
    else if t == RETURN_KEY && more then
      if path == CGI_BIN_PATH then Failure(CgiBinDirective(RETURN_KEY))
      else if b.ret != "" then Failure(Duplicate(RETURN_KEY))
      else match CheckSemicolon(tokens[i + 1])
        case Failure(e) => Failure(e)
        case Success(v) => Success((i + 2, b.(ret := v)))
    else if t == ALIAS_KEY && more then
      if path == CGI_BIN_PATH then Failure(CgiBinDirective(ALIAS_KEY))
      else if b.alias != "" then Failure(Duplicate(ALIAS_KEY))
      else match CheckSemicolon(tokens[i + 1])
        case Failure(e) => Failure(e)
        case Success(v) => Success((i + 2, b.(alias := v)))
    else if t == CGI_KEY then
      if i + 2 >= |tokens| then Failure(IncompleteCgi)
      else
        var ext := tokens[i + 1];
        match CheckSemicolon(tokens[i + 2])
        case Failure(e) => Failure(e)
        case Success(script) =>
          if |ext| < 2 || ext[0] != '.' then Failure(BadValue(CGI_KEY))
          else if |script| < 3 || script[0] != '.' || script[1] != '/' then Failure(BadValue(CGI_KEY))
          else if ext in b.cgi then Failure(Duplicate(CGI_KEY))
          else Success((i + 3, b.(cgi := b.cgi[ext := script[2..]])))
    else if t == CMBS_KEY && more then
      if b.maxBody.Given? then Failure(Duplicate(CMBS_KEY))
      else match CheckSemicolon(tokens[i + 1])
        case Failure(e) => Failure(e)
        case Success(v) => Success((i + 2, b.(maxBody := Given(v))))
    else Failure(UnknownToken(t))
  }

  /** The whole loop of setLocation from token i. */
  function Walk(path: string, tokens: seq<string>, i: nat, b: LocationBlock, env: Env): Result<LocationBlock, ConfigError>
    decreases |tokens| - i
  {
    if i >= |tokens| then Success(b)
    else match Step(path, tokens, i, b, env)
      case Failure(e) => Failure(e)
      case Success(p) => Walk(path, tokens, p.0, p.1, env)
  }

  /** ConfigFile::isFileExistAndExecutable("./", script). */
  predicate Executable(env: Env, script: string) {
    (TypePath(env, script) == Some(RegularFile) && script in env.executables)
    || (TypePath(env, "./" + script) == Some(RegularFile) && "./" + script in env.executables)
  }

  /** isValidLocation: the cgi-bin location ends the process; the path must start with '/'; every handler must be executable. */
  function ValidateLocation(b: LocationBlock, env: Env): Option<ConfigError> {
    if b.path == CGI_BIN_PATH then Some(Exit(1))
    else if |b.path| == 0 || b.path[0] != '/' then Some(InvalidLocation)
    else if exists ext :: ext in b.cgi && !Executable(env, b.cgi[ext]) then Some(CgiNotExecutable)
    else None
  }

  /** setLocation: walk the tokens, validate, and yield the block to append. */
  function LocationOutcome(path: string, tokens: seq<string>, serverMax: nat, env: Env): Result<LocationBlock, ConfigError> {
    match Walk(path, tokens, 0, FreshBlock(path, serverMax), env)
    case Failure(e) => Failure(e)
    case Success(b) =>
      match ValidateLocation(b, env)
      case Some(e) => Failure(e)
      case None => Success(b)
  }

  /** What every block the walk produces satisfies, given the environment it was checked against. */
  predicate WellFormedBlock(b: LocationBlock, env: Env) {
    (b.root == "" || TypePath(env, b.root) == Some(Directory))
    && (b.index == "" || b.index[0] != '/')
    && (forall ext :: ext in b.cgi ==> GoodCgiEntry(ext, b.cgi[ext]))
  }

  lemma StepKeepsWellFormed(path: string, tokens: seq<string>, i: nat, b: LocationBlock, env: Env)
    requires i < |tokens| && WellFormedBlock(b, env)
    ensures Step(path, tokens, i, b, env).Success? ==> WellFormedBlock(Step(path, tokens, i, b, env).value.1, env)
  {
  }

  lemma {:induction false} WalkKeepsWellFormed(path: string, tokens: seq<string>, i: nat, b: LocationBlock, env: Env)
    requires WellFormedBlock(b, env)
    ensures Walk(path, tokens, i, b, env).Success? ==> WellFormedBlock(Walk(path, tokens, i, b, env).value, env)
    decreases |tokens| - i
  {
    if i < |tokens| {
      var s := Step(path, tokens, i, b, env);
      if s.Success? {
        StepKeepsWellFormed(path, tokens, i, b, env);
        WalkKeepsWellFormed(path, tokens, s.value.0, s.value.1, env);
      }
    }
  }

  /** Without a client_max_body_size token the block keeps the size it started with. */
  lemma {:induction false} WalkInheritsBodySize(path: string, tokens: seq<string>, i: nat, b: LocationBlock, env: Env)
    requires CMBS_KEY !in tokens
    ensures Walk(path, tokens, i, b, env).Success? ==> Walk(path, tokens, i, b, env).value.maxBody == b.maxBody
    decreases |tokens| - i
  {
    if i < |tokens| {
      var s := Step(path, tokens, i, b, env);
      if s.Success? {
        assert tokens[i] != CMBS_KEY;
        assert s.value.1.maxBody == b.maxBody;
        WalkInheritsBodySize(path, tokens, s.value.0, s.value.1, env);
      }
    }
  }

  /** Every accepted location starts with '/', has well-formed handlers that are executable, and never is the cgi-bin path. */
  lemma LocationOutcomeSpec(path: string, tokens: seq<string>, serverMax: nat, env: Env)
    ensures var r := LocationOutcome(path, tokens, serverMax, env);
      r.Success? ==> r.value.path == path && |path| > 0 && path[0] == '/' && path != CGI_BIN_PATH
                     && WellFormedBlock(r.value, env)
                     && (forall ext :: ext in r.value.cgi ==> Executable(env, r.value.cgi[ext]))
    ensures CMBS_KEY !in tokens && LocationOutcome(path, tokens, serverMax, env).Success? ==>
              LocationOutcome(path, tokens, serverMax, env).value.maxBody == Inherited(serverMax)
  {
    WalkKeepsWellFormed(path, tokens, 0, FreshBlock(path, serverMax), env);
    WalkPath(path, tokens, 0, FreshBlock(path, serverMax), env);
    if CMBS_KEY !in tokens {
      WalkInheritsBodySize(path, tokens, 0, FreshBlock(path, serverMax), env);
    }
  }

  lemma {:induction false} WalkPath(path: string, tokens: seq<string>, i: nat, b: LocationBlock, env: Env)
    ensures Walk(path, tokens, i, b, env).Success? ==> Walk(path, tokens, i, b, env).value.path == b.path
    decreases |tokens| - i
  {
    if i < |tokens| {
      var s := Step(path, tokens, i, b, env);
      if s.Success? {
        WalkPath(path, tokens, s.value.0, s.value.1, env);
      }
    }
  }

  /** A repeated single-value directive is rejected. */
  lemma StepRejectsRepeat(path: string, tokens: seq<string>, i: nat, b: LocationBlock, env: Env)
    requires i + 1 < |tokens|
    ensures tokens[i] == ROOT_KEY && b.root != "" ==> Step(path, tokens, i, b, env) == Failure(Duplicate(ROOT_KEY))
    ensures (tokens[i] == METHODS_KEY || tokens[i] == ALLOW_METHODS_KEY) && b.methods.Some? ==>
              Step(path, tokens, i, b, env) == Failure(Duplicate(METHODS_KEY))
    ensures tokens[i] == AUTOINDEX_KEY && path != CGI_BIN_PATH && b.autoindex.Some? ==>
              Step(path, tokens, i, b, env) == Failure(Duplicate(AUTOINDEX_KEY))
    ensures tokens[i] == INDEX_KEY && b.index != "" ==> Step(path, tokens, i, b, env) == Failure(Duplicate(INDEX_KEY))
    ensures tokens[i] == RETURN_KEY && path != CGI_BIN_PATH && b.ret != "" ==>
              Step(path, tokens, i, b, env) == Failure(Duplicate(RETURN_KEY))
    ensures tokens[i] == ALIAS_KEY && path != CGI_BIN_PATH && b.alias != "" ==>
              Step(path, tokens, i, b, env) == Failure(Duplicate(ALIAS_KEY))
    ensures tokens[i] == CMBS_KEY && b.maxBody.Given? ==> Step(path, tokens, i, b, env) == Failure(Duplicate(CMBS_KEY))
  {
  }

  /** A directive keyword as the last token has no value and falls through to the unknown-token error. */
  lemma StepRejectsDanglingKeyword(path: string, tokens: seq<string>, b: LocationBlock, env: Env)
    requires |tokens| > 0 && tokens[|tokens| - 1] != CGI_KEY
    ensures Step(path, tokens, |tokens| - 1, b, env) == Failure(UnknownToken(tokens[|tokens| - 1]))
  {
  }

  /** A cgi directive stores its script without the "./" and refuses a second handler for the extension. */
  lemma StepCgiEntry(path: string, tokens: seq<string>, i: nat, b: LocationBlock, env: Env)
    requires i + 2 < |tokens| && tokens[i] == CGI_KEY
    ensures var r := Step(path, tokens, i, b, env);
      r.Success? <==> (CheckSemicolon(tokens[i + 2]).Success? && |tokens[i + 1]| >= 2 && tokens[i + 1][0] == '.'
                       && |tokens[i + 2]| >= 4 && tokens[i + 2][..2] == "./" && tokens[i + 1] !in b.cgi)
    ensures var r := Step(path, tokens, i, b, env);
      r.Success? ==> r.value.0 == i + 3
                     && r.value.1 == b.(cgi := b.cgi[tokens[i + 1] := tokens[i + 2][2..|tokens[i + 2]| - 1]])
  {
    var sc := CheckSemicolon(tokens[i + 2]);
    if sc.Success? {
      var script := sc.value;
      assert script + ";" == tokens[i + 2];
      if |script| >= 2 {
        assert script[..2] == tokens[i + 2][..2];
        assert script[0] == tokens[i + 2][0] && script[1] == tokens[i + 2][1];
      }
      if |script| >= 2 {
        assert script[2..] == tokens[i + 2][2..|tokens[i + 2]| - 1];
      }
    }
  }

  /** A location block as nginx users write it is read into the expected record. */
  lemma WalkExample(tokens: seq<string>, env: Env)
    requires tokens == [METHODS_KEY, "GET", "POST;", CGI_KEY, ".py", "./cgi-bin/run.py;"]
    ensures Walk("/app", tokens, 0, FreshBlock("/app", 1024), env) ==
            Success(LocationBlock("/app", "", Some(["GET", "POST"]), None, "", "", "",
                                  map[".py" := "cgi-bin/run.py"], Inherited(1024)))
  {
    var b0 := FreshBlock("/app", 1024);
    var b1 := b0.(methods := Some(["GET", "POST"]));
    MethodsStepExample("/app", tokens, b0, env);
    assert Step("/app", tokens, 0, b0, env) == Success((3, b1));
    var b2 := b1.(cgi := map[".py" := "cgi-bin/run.py"]);
    CgiStepExample("/app", tokens, b1, env);
    assert Walk("/app", tokens, 6, b2, env) == Success(b2);
  }

  lemma MethodsStepExample(path: string, tokens: seq<string>, b: LocationBlock, env: Env)
    requires |tokens| == 6 && tokens[0] == METHODS_KEY && tokens[1] == "GET" && tokens[2] == "POST;"
    requires b.methods == None
    ensures Step(path, tokens, 0, b, env) == Success((3, b.(methods := Some(["GET", "POST"]))))
  {
    CheckSemicolonRoundTrip("POST");
    assert "POST" + ";" == tokens[2];
    assert tokens[2][4] == ';';
    assert ';' !in tokens[1];
    assert CheckSemicolon(tokens[2]) == Success("POST");
    assert ["GET"] + ["POST"] == ["GET", "POST"] && [] + [tokens[1]] == ["GET"];
    assert CollectMethods(tokens, 2, ["GET"]) == Success((2, ["GET", "POST"]));
    assert CollectMethods(tokens, 1, []) == Success((2, ["GET", "POST"]));
  }

  lemma CgiStepExample(path: string, tokens: seq<string>, b: LocationBlock, env: Env)
    requires |tokens| == 6 && tokens[3] == CGI_KEY && tokens[4] == ".py" && tokens[5] == "./cgi-bin/run.py;"
    requires b.cgi == map[]
    ensures Step(path, tokens, 3, b, env) == Success((6, b.(cgi := map[".py" := "cgi-bin/run.py"])))
  {
    var script := "./cgi-bin/run.py";
    CheckSemicolonRoundTrip(script);
    assert script + ";" == tokens[5];
    assert script[2..] == "cgi-bin/run.py";
  }

  // ================================================================ checkLocations

  /** Two locations of the list share a path. */
  predicate HasDuplicatePath(locs: seq<LocationBlock>) {
    exists i, j :: 0 <= i < j < |locs| && locs[i].path == locs[j].path
  }

  // ================================================================ the class

  class ServerUnit {
    var port: int
    var serverName: string
    var root: string
    var maxBodySize: nat
    var index: string
    var autoindex: bool
    var errorPages: map<int, string>
    var locations: seq<LocationBlock>
    var listenFd: int

    /** ServerUnit(): MAX_CONTENT_LENGTH, whose header is not part of this model, is a parameter. */
    constructor (defaultMaxBody: nat)
      ensures port == 0 && serverName == "" && root == "" && maxBodySize == defaultMaxBody
      ensures index == "" && !autoindex && locations == [] && listenFd == 0
      ensures forall c :: c in errorPages <==> c in INITIAL_ERROR_CODES
      ensures forall c :: c in errorPages ==> errorPages[c] == ""
    {
      port, serverName, root, maxBodySize := 0, "", "", defaultMaxBody;
      index, autoindex, locations, listenFd := "", false, [], 0;
      errorPages := map[];
      new;
      InitErrorPages();
    }

    method InitErrorPages()
      modifies this`errorPages
      ensures forall c :: c in errorPages <==> c in old(errorPages) || c in INITIAL_ERROR_CODES
      ensures forall c :: c in INITIAL_ERROR_CODES ==> errorPages[c] == ""
      ensures forall c :: c in old(errorPages) && c !in INITIAL_ERROR_CODES ==> errorPages[c] == old(errorPages)[c]
    {
      errorPages := errorPages[301 := ""];
      errorPages := errorPages[302 := ""];
      errorPages := errorPages[400 := ""];
      errorPages := errorPages[401 := ""];
      errorPages := errorPages[402 := ""];
      errorPages := errorPages[403 := ""];
      errorPages := errorPages[404 := ""];
      errorPages := errorPages[405 := ""];
      errorPages := errorPages[406 := ""];
      errorPages := errorPages[500 := ""];
      errorPages := errorPages[501 := ""];
      errorPages := errorPages[502 := ""];
      errorPages := errorPages[503 := ""];
      errorPages := errorPages[505 := ""];
      errorPages := errorPages[505 := ""];
    }

    method SetPort(token: string) returns (err: Option<ConfigError>)
      modifies this`port
      ensures PortOutcome(token).Failure? ==> err == Some(PortOutcome(token).error) && port == old(port)
      ensures PortOutcome(token).Success? ==> err == None && port == PortOutcome(token).value
    {
      var v := CheckSemicolon(token);
      if v.Failure? {
        return Some(v.error);
      }
      var t := v.value;
      var i := 0;
      while i < |t|
        invariant i <= |t| && forall k :: 0 <= k < i ==> IsDigit(t[k])
      {
        if !IsDigit(t[i]) {
          return Some(BadValue(PORT_KEY));
        }
        i := i + 1;
      }
      var n := FtStoi(t);
      if n.Failure? {
        return Some(StoiFailure);
      }
      if n.value < 1 || n.value > 65636 {
        return Some(BadValue(PORT_KEY));
      }
      port := n.value % 65536;
      err := None;
    }

    method SetClientMaxBodySize(token: string) returns (err: Option<ConfigError>)
      modifies this`maxBodySize
      ensures BodySizeOutcome(token).Failure? ==> err == Some(BodySizeOutcome(token).error) && maxBodySize == old(maxBodySize)
      ensures BodySizeOutcome(token).Success? ==> err == None && maxBodySize == BodySizeOutcome(token).value
    {
      var v := CheckSemicolon(token);
      if v.Failure? {
        return Some(v.error);
      }
      var t := v.value;
      var i := 0;
      while i < |t|
        invariant i <= |t| && forall k :: 0 <= k < i ==> IsDigit(t[k])
      {
        if t[i] < '0' || t[i] > '9' {
          return Some(BadValue(CMBS_KEY));
        }
        i := i + 1;
      }
      var n := FtStoi(t);
      if n.Failure? {
        return Some(StoiFailure);
      }
      if n.value == 0 {
        return Some(BadValue(CMBS_KEY));
      }
      maxBodySize := n.value;
      err := None;
    }

    method SetIndex(token: string) returns (err: Option<ConfigError>)
      modifies this`index
      ensures IndexOutcome(token).Failure? ==> err == Some(IndexOutcome(token).error) && index == old(index)
      ensures IndexOutcome(token).Success? ==> err == None && index == IndexOutcome(token).value
    {
      var v := CheckSemicolon(token);
      if v.Failure? {
        return Some(v.error);
      }
      if |v.value| > 0 && v.value[0] == '/' {
        return Some(BadValue(INDEX_KEY));
      }
      index := v.value;
      err := None;
    }

    method SetAutoindex(token: string) returns (err: Option<ConfigError>)
      modifies this`autoindex
      ensures AutoindexOutcome(token, old(autoindex)).Failure? ==>
                err == Some(AutoindexOutcome(token, old(autoindex)).error) && autoindex == old(autoindex)
      ensures AutoindexOutcome(token, old(autoindex)).Success? ==>
                err == None && autoindex == AutoindexOutcome(token, old(autoindex)).value
    {
      var v := CheckSemicolon(token);
      if v.Failure? {
        return Some(v.error);
      }
      if v.value != "on" && v.value != "off" {
        return Some(BadValue(AUTOINDEX_KEY));
      }
      if v.value == "on" {
        autoindex := true;
      }
      err := None;
    }

    method SetFd(fd: int)
      modifies this`listenFd
      ensures listenFd == fd
    {
      listenFd := fd;
    }

    /** setErrorPages: each accepted pair is stored before the next one is checked. */
    method SetErrorPages(tokens: seq<string>, env: Env, reason: int -> string) returns (err: Option<ConfigError>)
      modifies this`errorPages
      ensures (errorPages, err) == ErrorPagesOutcome(old(errorPages), tokens, root, env, reason)
      ensures err.None? && |tokens| % 2 == 0 ==> forall m :: 0 <= m < |tokens| / 2 ==>
                PairAt(tokens, m, root, env, reason).Success?
                && (NoLaterPair(tokens, m, PairAt(tokens, m, root, env, reason).value.0, root, env, reason) ==>
                      GetPathErrorPage(PairAt(tokens, m, root, env, reason).value.0) == PairAt(tokens, m, root, env, reason).value.1)
    {
      if tokens == [] {
        return None;
      }
      if |tokens| % 2 != 0 {
        return Some(BadValue(ERROR_PAGE_KEY));
      }
      var k := 0;
      while 2 * k < |tokens|
        invariant 2 * k <= |tokens|
        invariant ErrorPagesFrom(errorPages, tokens, k, root, env, reason)
                  == ErrorPagesOutcome(old(errorPages), tokens, root, env, reason)
        decreases |tokens| - 2 * k
      {
        var p := ErrorPagePair(tokens[2 * k], tokens[2 * k + 1], root, env, reason);
        if p.Failure? {
          return Some(p.error);
        }
        errorPages := errorPages[p.value.0 := p.value.1];
        k := k + 1;
      }
      err := None;
      forall m | 0 <= m < |tokens| / 2
        ensures PairAt(tokens, m, root, env, reason).Success?
                && (NoLaterPair(tokens, m, PairAt(tokens, m, root, env, reason).value.0, root, env, reason) ==>
                      GetPathErrorPage(PairAt(tokens, m, root, env, reason).value.0) == PairAt(tokens, m, root, env, reason).value.1)
      {
        ErrorPagesOutcomeStores(old(errorPages), tokens, m, root, env, reason);
      }
    }

    /** getPathErrorPage: the configured page, or "" for a code without one. */
    function GetPathErrorPage(code: int): (r: string)
      reads this
      ensures r == PageFor(errorPages, code)
    {
      if code in errorPages then errorPages[code] else ""
    }

    /** setLocation: the token walk of a location block, then isValidLocation and push_back. */
    method SetLocation(path: string, tokens: seq<string>, env: Env) returns (err: Option<ConfigError>)
      modifies this`locations
      ensures LocationOutcome(path, tokens, maxBodySize, env).Failure? ==>
                err == Some(LocationOutcome(path, tokens, maxBodySize, env).error) && locations == old(locations)
      ensures LocationOutcome(path, tokens, maxBodySize, env).Success? ==>
                err == None && locations == old(locations) + [LocationOutcome(path, tokens, maxBodySize, env).value]
    {
      var b := FreshBlock(path, maxBodySize);
      var i := 0;
      while i < |tokens|
        invariant Walk(path, tokens, i, b, env) == Walk(path, tokens, 0, FreshBlock(path, maxBodySize), env)
        decreases |tokens| - i
      {
        var s := Step(path, tokens, i, b, env);
        if s.Failure? {
          return Some(s.error);
        }
        i, b := s.value.0, s.value.1;
      }
      var v := ValidateLocation(b, env);
      if v.Some? {
        return v;
      }
      locations := locations + [b];
      err := None;
    }

    /** checkLocations: whether two location blocks share a path. */
    method CheckLocations() returns (dup: bool)
      ensures dup <==> HasDuplicatePath(locations)
    {
      if |locations| < 2 {
        return false;
      }
      var i := 0;
      while i < |locations| - 1
        invariant i <= |locations| - 1
        invariant forall a, c :: 0 <= a < i && a < c < |locations| ==> locations[a].path != locations[c].path
      {
        var j := i + 1;
        while j < |locations|
          invariant i < j <= |locations|
          invariant forall c :: i < c < j ==> locations[i].path != locations[c].path
        {
          if locations[i].path == locations[j].path {
            return true;
          }
          j := j + 1;
        }
        i := i + 1;
      }
      dup := false;
    }
  }
}
