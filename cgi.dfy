/**
 * Cgi: the environment a CGI script is started with. The environment is a std::map, so the
 * array handed to execve lists its entries in ascending key order; running the script is not
 * part of this model, its output is an input of the response builder.
 */
module CgiEnv {
  import opened Wrappers
  import opened Text
  import opened Records

  /** `a` and `b` agree before index k, and there `a` ends first or has the smaller character. */
  predicate LessAt(a: string, b: string, k: int) {
    0 <= k <= |a| && k <= |b| && a[..k] == b[..k]
    && (if k == |a| then k < |b| else k < |b| && a[k] < b[k])
  }

  /** std::string's operator<: lexicographic on character codes, a proper prefix first. */
  ghost predicate LexLess(a: string, b: string) {
    exists k :: LessAt(a, b, k)
  }

  lemma LexLessTransitive(a: string, b: string, c: string)
    requires LexLess(a, b) && LexLess(b, c)
    ensures LexLess(a, c)
  {
    var k1 :| LessAt(a, b, k1);
    var k2 :| LessAt(b, c, k2);
    if k1 <= k2 {
      assert a[..k1] == b[..k1] == c[..k2][..k1];
      if k1 < k2 {
        assert b[k1] == c[..k2][k1];
      }
      assert LessAt(a, c, k1);
    } else {
      assert a[..k2] == a[..k1][..k2] == b[..k1][..k2] == b[..k2];
      assert a[k2] == a[..k1][k2] == b[..k1][k2];
      assert LessAt(a, c, k2);
    }
  }

  lemma LexLessIrreflexive(a: string)
    ensures !LexLess(a, a)
  {
  }

  ghost predicate StrictlySorted(ks: seq<string>) {
    forall i, j :: 0 <= i < j < |ks| ==> LexLess(ks[i], ks[j])
  }

  /** The variable names setEnvVariables can set, in ascending order. */
  const ENV_NAMES: seq<string> :=
    ["CONTENT_LENGTH", "CONTENT_TYPE", "QUERY_STRING", "REQUEST_METHOD", "SCRIPT_NAME", "SERVER_PROTOCOL"]

  lemma {:induction false} SortedFromAdjacent(ks: seq<string>)
    requires forall i :: 0 <= i < |ks| - 1 ==> LexLess(ks[i], ks[i + 1])
    ensures StrictlySorted(ks)
    decreases |ks|
  {
    if |ks| > 1 {
      var init := ks[..|ks| - 1];
      SortedFromAdjacent(init);
      forall i, j | 0 <= i < j < |ks| ensures LexLess(ks[i], ks[j]) {
        if j < |ks| - 1 {
          assert init[i] == ks[i] && init[j] == ks[j];
        } else if i < j - 1 {
          assert init[i] == ks[i] && init[j - 1] == ks[j - 1];
          LexLessTransitive(ks[i], ks[j - 1], ks[j]);
        }
      }
    }
  }

  lemma EnvNamesSorted()
    ensures StrictlySorted(ENV_NAMES)
  {
    var n := ENV_NAMES;
    assert n[0][..8] == n[1][..8];
    assert LessAt(n[0], n[1], 8);
    assert LessAt(n[1], n[2], 0);
    assert LessAt(n[2], n[3], 0);
    assert LessAt(n[3], n[4], 0);
    assert n[4][..1] == n[5][..1];
    assert LessAt(n[4], n[5], 1);
    SortedFromAdjacent(n);
  }

  /** The names of `ns` that are keys of `env`, in the order of `ns`. */
  function Present(ns: seq<string>, env: map<string, string>): (ks: seq<string>)
    ensures forall k :: k in ks <==> k in ns && k in env
  {
    if ns == [] then []
    else (if ns[0] in env then [ns[0]] else []) + Present(ns[1..], env)
  }

  /** Keeping some names of a sorted list keeps it sorted. */
  lemma {:induction false} PresentSorted(ns: seq<string>, env: map<string, string>)
    requires StrictlySorted(ns)
    ensures StrictlySorted(Present(ns, env))
    decreases |ns|
  {
    if ns != [] {
      var rest := ns[1..];
      assert StrictlySorted(rest) by {
        forall i, j | 0 <= i < j < |rest| ensures LexLess(rest[i], rest[j]) {
          assert rest[i] == ns[i + 1] && rest[j] == ns[j + 1];
        }
      }
      PresentSorted(rest, env);
      var p := Present(rest, env);
      forall k | k in p ensures LexLess(ns[0], k) {
        var j :| 0 <= j < |rest| && rest[j] == k;
        assert ns[j + 1] == k;
      }
    }
  }

  /** The keys of `env`, which setEnvVariables draws from ENV_NAMES, in std::map order. */
  function KeyOrder(env: map<string, string>): seq<string> {
    Present(ENV_NAMES, env)
  }

  /** A map's iteration order: every key once, each smaller than the next. */
  lemma KeyOrderIsMapOrder(env: map<string, string>)
    requires forall k :: k in env ==> k in ENV_NAMES
    ensures StrictlySorted(KeyOrder(env))
    ensures forall k :: k in KeyOrder(env) <==> k in env
    ensures forall i, j :: 0 <= i < j < |KeyOrder(env)| ==> KeyOrder(env)[i] != KeyOrder(env)[j]
  {
    EnvNamesSorted();
    PresentSorted(ENV_NAMES, env);
    var ks := KeyOrder(env);
    forall i, j | 0 <= i < j < |ks| ensures ks[i] != ks[j] {
      LexLessIrreflexive(ks[i]);
    }
  }

  /** The "KEY=VALUE" strings built from the map, in its iteration order. */
  function EnvStrings(env: map<string, string>): seq<string> {
    var ks := KeyOrder(env);
    seq(|ks|, i requires 0 <= i < |ks| => ks[i] + "=" + env[ks[i]])
  }

  /** The execve environment: the strings, then the NULL terminator (None). */
  function EnvArray(env: map<string, string>): seq<Option<string>> {
    var strs := EnvStrings(env);
    seq(|strs|, i requires 0 <= i < |strs| => Some(strs[i])) + [None]
  }

  /** The environment setEnvVariables builds for a request. */
  function RequestEnv(req: Request): map<string, string> {
    var base := map["REQUEST_METHOD" := req.methodName, "QUERY_STRING" := req.query];
    var typed := if "Content-Type" in req.headers then base["CONTENT_TYPE" := req.headers["Content-Type"]] else base;
    var length := if "Content-Length" in req.headers then req.headers["Content-Length"] else NatToString(|req.body|);
    typed["CONTENT_LENGTH" := length]["SCRIPT_NAME" := req.path]["SERVER_PROTOCOL" := req.version]
  }

  /** What a CGI script sees of the request. */
  lemma RequestEnvContents(req: Request)
    ensures var env := RequestEnv(req);
      (forall k :: k in env ==> k in ENV_NAMES)
      && ("CONTENT_TYPE" in env <==> "Content-Type" in req.headers)
      && ("Content-Type" in req.headers ==> env["CONTENT_TYPE"] == req.headers["Content-Type"])
      && env["REQUEST_METHOD"] == req.methodName && env["QUERY_STRING"] == req.query
      && env["SCRIPT_NAME"] == req.path && env["SERVER_PROTOCOL"] == req.version
      && env["CONTENT_LENGTH"] == (if "Content-Length" in req.headers then req.headers["Content-Length"]
                                   else NatToString(|req.body|))
  {
  }

  /** The execve environment has one "KEY=VALUE" entry per variable, in key order, and ends in NULL. */
  lemma EnvArrayShape(env: map<string, string>)
    requires forall k :: k in env ==> k in ENV_NAMES
    ensures var a := EnvArray(env); var ks := KeyOrder(env);
      |a| == |ks| + 1 && a[|ks|] == None && StrictlySorted(ks)
      && (forall i :: 0 <= i < |ks| ==> a[i] == Some(ks[i] + "=" + env[ks[i]]))
      && (forall k :: k in env <==> k in ks)
  {
    KeyOrderIsMapOrder(env);
  }

  class Cgi {
    var scriptPath: string
    /** _envVariables. */
    var env: map<string, string>

    /** Only the names setEnvVariables writes are ever keys of the environment. */
    predicate Valid()
      reads this
    {
      scriptPath != "" && forall k :: k in env ==> k in ENV_NAMES
    }

    constructor Init(scriptPath: string)
      requires scriptPath != ""
      ensures Valid() && this.scriptPath == scriptPath && env == map[]
    {
      this.scriptPath := scriptPath;
      env := map[];
    }

    /** Cgi(scriptPath): an empty path raises invalid_argument. */
    static method Create(scriptPath: string) returns (r: Result<Cgi, string>)
      ensures scriptPath == "" <==> r.Failure?
      ensures r.Failure? ==> r.error == "Script path cannot be empty"
      ensures r.Success? ==> fresh(r.value) && r.value.Valid() && r.value.scriptPath == scriptPath
                             && r.value.env == map[]
    {
      if scriptPath == "" {
        return Failure("Script path cannot be empty");
      }
      var c := new Cgi.Init(scriptPath);
      r := Success(c);
    }

    method SetEnvVariables(req: Request)
      requires Valid()
      modifies this
      ensures Valid() && env == RequestEnv(req) && scriptPath == old(scriptPath)
    {
      env := map[];
      env := env["REQUEST_METHOD" := req.methodName];
      env := env["QUERY_STRING" := req.query];
      if "Content-Type" in req.headers {
        env := env["CONTENT_TYPE" := req.headers["Content-Type"]];
      }
      if "Content-Length" in req.headers {
        env := env["CONTENT_LENGTH" := req.headers["Content-Length"]];
      } else {
        env := env["CONTENT_LENGTH" := NatToString(|req.body|)];
      }
      env := env["SCRIPT_NAME" := req.path];
      env := env["SERVER_PROTOCOL" := req.version];
    }

    /** The env_strings loop over the map, then the envp loop and its NULL terminator. */
    method BuildEnvp() returns (envp: seq<Option<string>>)
      requires Valid()
      ensures envp == EnvArray(env)
    {
      var ks := KeyOrder(env);
      var strs: seq<string> := [];
      var i := 0;
      while i < |ks|
        invariant i <= |ks|
        invariant strs == EnvStrings(env)[..i]
      {
        assert EnvStrings(env)[..i + 1] == EnvStrings(env)[..i] + [ks[i] + "=" + env[ks[i]]];
        strs := strs + [ks[i] + "=" + env[ks[i]]];
        i := i + 1;
      }
      envp := [];
      var j := 0;
      while j < |strs|
        invariant j <= |strs| == |EnvStrings(env)|
        invariant strs == EnvStrings(env)
        invariant envp == EnvArray(env)[..j]
      {
        assert EnvArray(env)[..j + 1] == EnvArray(env)[..j] + [Some(strs[j])];
        envp := envp + [Some(strs[j])];
        j := j + 1;
      }
      assert envp + [None] == EnvArray(env);
      envp := envp + [None];
    }
  }
}
