/**
 * The HTTP boundary of the relay (internal/server/server.go): who may open
 * a session, under which username, and which static file answers a path.
 *
 * Token validation (a signed JWT checked by a library) is a parameter
 * `validate` yielding the username or an error message; the filesystem is a
 * parameter `stat`; response writing is reduced to the decision taken.
 */
module Gateway {
  import opened Wrappers
  import opened GoStrings
  import Hub

  /**
   * The token of an `Authorization` header: splitting on single spaces
   * must give exactly two parts, the first exactly `Bearer`.
   */
  function BearerToken(header: string): (t: Option<string>)
    ensures t.Some? ==> header == "Bearer " + t.value && ' ' !in t.value
  {
    var parts := Split(header, ' ');
    if |parts| == 2 && parts[0] == "Bearer" then
      JoinSplit(header, ' ');
      Some(parts[1])
    else None
  }

  /** A header carries a bearer token exactly when it is `Bearer`, one space, and a token without spaces. */
  lemma BearerTokenIff(header: string, token: string)
    ensures BearerToken(header) == Some(token) <==> header == "Bearer " + token && ' ' !in token
  {
    if header == "Bearer " + token && ' ' !in token {
      SplitJoin(["Bearer", token], ' ');
      assert Join(["Bearer", token], ' ') == header;
    }
  }

  /** A header is rejected exactly when it does not start with `Bearer ` or has a space after it. */
  lemma BearerTokenNone(header: string)
    ensures BearerToken(header).None? <==> !(HasPrefix(header, "Bearer ") && ' ' !in header[7..])
  {
    if BearerToken(header).Some? {
      var t := BearerToken(header).value;
      assert header[..7] == "Bearer " && header[7..] == t;
    }
    if HasPrefix(header, "Bearer ") && ' ' !in header[7..] {
      assert header == "Bearer " + header[7..];
      BearerTokenIff(header, header[7..]);
    }
  }

  /** A lower-case scheme is rejected. */
  lemma LowerCaseSchemeRejected()
    ensures BearerToken("bearer abc") == None
  {
    BearerTokenNone("bearer abc");
    assert "bearer abc"[0] != "Bearer "[0];
  }

  /** Two spaces after the scheme are rejected. */
  lemma DoubleSpaceRejected()
    ensures BearerToken("Bearer  abc") == None
  {
    BearerTokenNone("Bearer  abc");
    assert "Bearer  abc"[7..][0] == ' ';
  }

  /** A third space-separated part is rejected. */
  lemma ExtraPartRejected()
    ensures BearerToken("Bearer abc def") == None
  {
    BearerTokenNone("Bearer abc def");
    assert "Bearer abc def"[7..][3] == ' ';
  }

  /** The scheme alone is rejected. */
  lemma SchemeAloneRejected()
    ensures BearerToken("Bearer") == None
  {
    BearerTokenNone("Bearer");
  }

  /** `Bearer abc` yields `abc`. */
  lemma WellFormedAccepted()
    ensures BearerToken("Bearer abc") == Some("abc")
  {
    assert ' ' !in "abc" by {
      assert forall i | 0 <= i < 3 :: "abc"[i] != ' ';
    }
    assert "Bearer abc" == "Bearer " + "abc";
    BearerTokenIff("Bearer abc", "abc");
  }

  /**
   * `authenticateRequest` (server.go:140-157): an empty header, a header
   * that is not `Bearer <token>`, and a token the validator refuses are each
   * rejected with their own message; otherwise the validated username.
   */
  function AuthenticateRequest(header: string, validate: string -> Result<string, string>): (r: Result<string, string>)
    ensures header == "" ==> r == Failure("authorization header required")
    ensures header != "" && BearerToken(header).None? ==> r == Failure("invalid authorization header format")
    ensures r.Success? <==> BearerToken(header).Some? && validate(BearerToken(header).value).Success?
    ensures r.Success? ==> r.value == validate(BearerToken(header).value).value
    ensures BearerToken(header).Some? && validate(BearerToken(header).value).Failure? ==>
      r == Failure("invalid token: " + validate(BearerToken(header).value).error)
  {
    if header == "" then Failure("authorization header required")
    else
      match BearerToken(header)
      case None => Failure("invalid authorization header format")
      case Some(token) =>
        match validate(token)
        case Failure(why) => Failure("invalid token: " + why)
        case Success(username) => Success(username)
  }

  /**
   * The token `HandleConnections` checks (server.go:178-188): the `token`
   * query parameter when non-empty; otherwise the bearer token of the
   * `Authorization` header; otherwise none ("").
   */
  function SelectToken(query: string, header: string): (token: string)
    ensures query != "" ==> token == query
    ensures query == "" ==> (token != "" <==> BearerToken(header).Some? && BearerToken(header).value != "")
    ensures query == "" && token != "" ==> header == "Bearer " + token
  {
    if query != "" then query
    else if header != "" then
      match BearerToken(header)
      case Some(t) => t
      case None => ""
    else ""
  }

  /** The answer to a WebSocket connection request. */
  datatype Admission =
    /** Refused with HTTP 401 and this message; no session exists. */
    | Unauthorized(message: string)
    /** The token was valid but the WebSocket upgrade failed; no session exists. */
    | UpgradeFailed
    /** A session was made and its registration sent to the hub. */
    | Admitted(client: Hub.Client)

  /**
   * `HandleConnections` (server.go:177-214): a session is made only for a
   * non-empty token the validator accepts, and carries exactly the validated
   * username. `upgraded` is whether the WebSocket upgrade succeeded and `id`
   * the identity of the new session.
   */
  function HandleConnections(query: string, header: string, validate: string -> Result<string, string>, upgraded: bool, id: nat): (a: Admission)
    ensures SelectToken(query, header) == "" ==> a == Unauthorized("Authentication token required")
    ensures a.Admitted? <==> SelectToken(query, header) != "" && validate(SelectToken(query, header)).Success? && upgraded
    ensures a.Admitted? ==> a.client == Hub.Client(id, validate(SelectToken(query, header)).value)
    ensures SelectToken(query, header) != "" && validate(SelectToken(query, header)).Failure? ==> a == Unauthorized("Invalid token")
    ensures a == UpgradeFailed <==> SelectToken(query, header) != "" && validate(SelectToken(query, header)).Success? && !upgraded
  {
    var token := SelectToken(query, header);
    if token == "" then Unauthorized("Authentication token required")
    else
      match validate(token)
      case Failure(_) => Unauthorized("Invalid token")
      case Success(username) =>
        if !upgraded then UpgradeFailed else Admitted(Hub.Client(id, username))
  }

  /** The event an admission sends to the hub, if any. */
  function Registration(a: Admission): Option<Hub.Event>
  {
    if a.Admitted? then Some(Hub.Register(a.client)) else None
  }

  /**
   * The hub hears of a connection only when its token is non-empty, the
   * validator accepts it and the upgrade succeeded, and then as the
   * registration of a new session for exactly the validated username.
   */
  lemma RegisteredOnlyWhenAdmitted(query: string, header: string, validate: string -> Result<string, string>, upgraded: bool, id: nat)
    ensures var e := Registration(HandleConnections(query, header, validate, upgraded, id));
      var token := SelectToken(query, header);
      && (e.Some? <==> token != "" && validate(token).Success? && upgraded)
      && (e.Some? ==> e.value == Hub.Register(Hub.Client(id, validate(token).value)))
  {
  }

  /**
   * A non-empty query token wins even when the header holds a different,
   * valid one: the header is only consulted when the query value is empty.
   */
  lemma QueryTokenWins(query: string, header: string, validate: string -> Result<string, string>, id: nat)
    requires query != "" && validate(query).Failure?
    ensures HandleConnections(query, header, validate, true, id) == Unauthorized("Invalid token")
  {
  }

  /** What `os.Stat` says about a path. */
  datatype Stat = NotExist | StatError(message: string) | NotDirectory | Directory

  /** The answer `ServeStaticFiles` gives. */
  datatype StaticReply =
    | NotFound
    | InternalError(message: string)
    | ServeFile(path: string, contentType: string)

  /** Paths kept away from the static files: API routes, the socket, keys and registration. */
  predicate IsReserved(path: string) {
    HasPrefix(path, "/api") || HasPrefix(path, "/ws") || HasPrefix(path, "/keys") || HasPrefix(path, "/register")
  }

  const StaticRoot := "cmd/static/"
  const IndexFile := StaticRoot + "index.html"
  const HtmlType := "text/html; charset=utf-8"
  const JsType := "application/javascript; charset=utf-8"
  const CssType := "text/css; charset=utf-8"
  const BinaryType := "application/octet-stream"

  /** The content type chosen from a file extension (server.go:263-273). */
  function ContentType(ext: string): (t: string)
    ensures t == HtmlType <==> ext == ".html"
    ensures t == JsType <==> ext == ".js"
    ensures t == CssType <==> ext == ".css"
    ensures t == BinaryType <==> ext !in {".html", ".js", ".css"}
  {
    if ext == ".html" then HtmlType
    else if ext == ".js" then JsType
    else if ext == ".css" then CssType
    else BinaryType
  }

  /** The request path after mapping the root to the index page (server.go:228-231). */
  function RequestedPath(urlPath: string): string {
    if urlPath == "/" || urlPath == "" then "/index.html" else urlPath
  }

  /**
   * `ServeStaticFiles` (server.go:217-276): reserved prefixes are not found;
   * the root is the index page; a missing file other than the index falls
   * back to the index page; any other failed lookup of the requested file
   * is an internal error carrying the lookup's message, with no fallback; a
   * directory is not found; otherwise the file is served with the
   * content type of its extension.
   */
  function ServeStaticFiles(urlPath: string, stat: string -> Stat): (r: StaticReply)
    ensures IsReserved(urlPath) ==> r == NotFound
    ensures r.ServeFile? ==> !IsReserved(urlPath) && stat(r.path) == NotDirectory
    ensures r.ServeFile? ==> r.contentType == ContentType(Ext(r.path))
    ensures r.ServeFile? ==> r.path == StaticRoot + TrimPrefix(RequestedPath(urlPath), "/") || r.path == IndexFile
    ensures r.InternalError? ==> stat(StaticRoot + TrimPrefix(RequestedPath(urlPath), "/")).StatError?
    ensures !IsReserved(urlPath) && stat(StaticRoot + TrimPrefix(RequestedPath(urlPath), "/")).StatError? ==>
      r == InternalError(stat(StaticRoot + TrimPrefix(RequestedPath(urlPath), "/")).message)
  {
    if IsReserved(urlPath) then NotFound
    else
      var path := RequestedPath(urlPath);
      var fullPath := StaticRoot + TrimPrefix(path, "/");
      var info := stat(fullPath);
      var served :=
        if info.NotExist? then
          (if path != "/index.html" then IndexFile else fullPath)
        else fullPath;
      var served_info :=
        if info.NotExist? then
          (if path != "/index.html" then stat(IndexFile) else info)
        else info;
      match served_info
      case StatError(message) =>
        if info.NotExist? then NotFound else InternalError(message)
      case NotExist => NotFound
      case Directory => NotFound
      case NotDirectory => ServeFile(served, ContentType(Ext(served)))
  }

  /** A request that resolves to the index page serves it as HTML when it is a non-directory. */
  lemma IndexServed(urlPath: string, stat: string -> Stat)
    requires !IsReserved(urlPath) && RequestedPath(urlPath) == "/index.html"
    requires stat(IndexFile) == NotDirectory
    ensures ServeStaticFiles(urlPath, stat) == ServeFile(IndexFile, HtmlType)
  {
    assert TrimPrefix("/index.html", "/") == "index.html";
    assert StaticRoot + TrimPrefix(RequestedPath(urlPath), "/") == IndexFile;
    ExtOfSuffix(StaticRoot + "index", ".html");
    assert StaticRoot + "index" + ".html" == IndexFile;
  }

  /** The root path and the empty path are both the index page. */
  lemma RootIsIndex(stat: string -> Stat)
    requires stat(IndexFile) == NotDirectory
    ensures ServeStaticFiles("/", stat) == ServeFile(IndexFile, HtmlType)
    ensures ServeStaticFiles("", stat) == ServeFile(IndexFile, HtmlType)
  {
    assert !IsReserved("/") && !IsReserved("");
    IndexServed("/", stat);
    IndexServed("", stat);
  }

  /**
   * A missing file (other than the index itself) falls back to the index
   * page, served as HTML, for client-side routing.
   */
  lemma MissingFallsBackToIndex(urlPath: string, stat: string -> Stat)
    requires !IsReserved(urlPath) && RequestedPath(urlPath) != "/index.html"
    requires stat(StaticRoot + TrimPrefix(RequestedPath(urlPath), "/")) == NotExist
    ensures stat(IndexFile) == NotDirectory ==> ServeStaticFiles(urlPath, stat) == ServeFile(IndexFile, HtmlType)
    ensures stat(IndexFile) != NotDirectory ==> ServeStaticFiles(urlPath, stat) == NotFound
  {
    ExtOfSuffix(StaticRoot + "index", ".html");
    assert StaticRoot + "index" + ".html" == IndexFile;
  }

  /** A directory is never listed. */
  lemma DirectoryNotFound(urlPath: string, stat: string -> Stat)
    requires stat(StaticRoot + TrimPrefix(RequestedPath(urlPath), "/")) == Directory
    ensures ServeStaticFiles(urlPath, stat) == NotFound
  {
  }

  /**
   * The reserved prefixes are plain string prefixes: a page such as
   * `/apiary` or `/wsdl` is never served, even if the file exists.
   */
  lemma ReservedByPrefixOnly(stat: string -> Stat)
    ensures ServeStaticFiles("/apiary", stat) == NotFound
    ensures ServeStaticFiles("/wsdl.html", stat) == NotFound
  {
    assert "/apiary"[..4] == "/api";
    assert "/wsdl.html"[..3] == "/ws";
  }

  /** An existing non-directory outside the reserved prefixes is served as itself. */
  lemma ExistingFileServed(urlPath: string, stat: string -> Stat)
    requires !IsReserved(urlPath)
    requires stat(StaticRoot + TrimPrefix(RequestedPath(urlPath), "/")) == NotDirectory
    ensures var full := StaticRoot + TrimPrefix(RequestedPath(urlPath), "/");
      ServeStaticFiles(urlPath, stat) == ServeFile(full, ContentType(Ext(full)))
  {
  }

  /** `/<name>.js` names the file `<name>.js` under the static root. */
  lemma ScriptPath(name: string)
    ensures RequestedPath("/" + name + ".js") == "/" + name + ".js"
    ensures StaticRoot + TrimPrefix(RequestedPath("/" + name + ".js"), "/") == StaticRoot + name + ".js"
  {
    var urlPath := "/" + name + ".js";
    assert |urlPath| > 1;
    assert urlPath[..1] == "/" && urlPath[1..] == name + ".js";
  }

  /** A file ending in `.js` whose name has no other dot is JavaScript. */
  lemma ScriptType(name: string)
    requires '.' !in name && '/' !in name
    ensures ContentType(Ext(StaticRoot + name + ".js")) == JsType
  {
    ExtOfSuffix(StaticRoot + name, ".js");
  }

  /** An existing JavaScript file under the static root is served as JavaScript. */
  lemma ScriptServedAsJavaScript(name: string, stat: string -> Stat)
    requires '.' !in name && '/' !in name
    requires !IsReserved("/" + name + ".js")
    requires stat(StaticRoot + name + ".js") == NotDirectory
    ensures ServeStaticFiles("/" + name + ".js", stat) == ServeFile(StaticRoot + name + ".js", JsType)
  {
    ScriptPath(name);
    ScriptType(name);
    ExistingFileServed("/" + name + ".js", stat);
  }
}
