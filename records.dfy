/**
 * The values the core reads from classes whose sources are not part of this model (Request,
 * Location), the file system as the server queries it, and the constants of include/paths.hpp.
 */
module Records {
  import opened Wrappers
  import opened Utils

  // ================================================================ include/paths.hpp

  const WWW_ROOT: string := "www/"
  const DEFAULT_INDEX: string := "www/index.html"
  const CGI_BIN: string := "cgi-bin/"
  const UPLOADS_URI: string := "www/upload"

  /** The page whose "<!--PHOTO_DETAIL-->" markers are filled by getFile.py. */
  const PHOTO_DETAIL_PAGE: string := "www/photo-detail.html"

  // ================================================================ HTTP status codes used by the core

  const OK: int := 200
  const CREATED: int := 201
  const MOVED_PERMANENTLY: int := 301
  const BAD_REQUEST: int := 400
  const FORBIDDEN: int := 403
  const NOT_FOUND: int := 404
  const METHOD_NOT_ALLOWED: int := 405
  const PAYLOAD_TOO_LARGE: int := 413
  const INTERNAL_SERVER_ERROR: int := 500
  const NOT_IMPLEMENTED: int := 501

  // ================================================================ the file system

  /** What ConfigFile::getTypePath reports for an existing path. */
  datatype FileKind = RegularFile | Directory | OtherFile

  /**
   * The file system and the CGI scripts, as inputs: `kinds` is what stat() reports (a path that
   * is absent does not exist), `contents` the files that open for reading with their bytes,
   * `listings` the directories opendir opens with their readdir entries in order, `executables`
   * the paths access(X_OK) accepts, and `cgiOutput` what the one CGI script a request runs prints.
   */
  datatype Env = Env(
    kinds: map<string, FileKind>,
    contents: map<string, string>,
    listings: map<string, seq<string>>,
    executables: set<string>,
    cgiOutput: string)

  /** ConfigFile::getTypePath: None stands for F_NOT_EXIST. */
  function TypePath(env: Env, path: string): Option<FileKind> {
    if path in env.kinds then Some(env.kinds[path]) else None
  }

  // ================================================================ Location and Request

  /**
   * A location block as its getters return it: the path it serves, the methods its
   * getMethods() table allows with getPrintMethods()'s rendering of them, and its root, alias,
   * index, autoindex, return target, body-size limit and CGI handlers by extension.
   */
  datatype Location = Location(
    path: string,
    allowed: set<Method>,
    printMethods: string,
    root: string,
    alias: string,
    index: string,
    autoindex: bool,
    ret: string,
    maxBodySize: nat,
    cgi: map<string, string>)

  /** Location::getCgiHandler: the script for an extension, or "" when none is configured. */
  function CgiHandler(loc: Location, ext: string): string {
    if ext in loc.cgi then loc.cgi[ext] else ""
  }

  /**
   * A parsed request as its getters return it: `ret` is the parser's verdict (200 when the
   * request is well formed), `autoindex` and `matched` are set by the router.
   */
  datatype Request = Request(
    methodName: string,
    path: string,
    query: string,
    version: string,
    headers: map<string, string>,
    body: string,
    ret: int,
    autoindex: bool,
    matched: Option<Location>)
}
