/**
 * `HttpRequest`: an immutable snapshot of one incoming request. Every
 * operation is a lookup; none changes the request.
 */
module Requests {
  import opened Wrappers
  import opened Strings
  import opened OrderedMaps
  import opened MetaErrors

  /**
   * The query parameters (`getParameters`), the body parameters (`postParameters`), the
   * cookies, the uploaded files, the server metadata and the raw body of a request.
   */
  datatype HttpRequest = HttpRequest(
    getParameters: OrderedMap<string>,
    postParameters: OrderedMap<string>,
    cookies: OrderedMap<string>,
    files: OrderedMap<string>,
    server: OrderedMap<string>,
    inputStream: string)
  {
    /**
     * `getParameter(key, default)`: the body parameter when the body has the key, otherwise
     * what the query lookup gives (the query parameter, else the default).
     */
    function GetParameter(key: string, default: Option<string> := None): (r: Option<string>)
      ensures HasKey(postParameters, key) ==> r == Some(GetBodyParameter(key, default))
      ensures !HasKey(postParameters, key) ==> r == GetQueryParameter(key, default)
    {
      if HasKey(postParameters, key) then Some(postParameters.values[key])
      else if HasKey(getParameters, key) then Some(getParameters.values[key])
      else default
    }

    /** `getQueryParameter(key, default)`: the entry of `getQueryParameters()`, else the default. */
    function GetQueryParameter(key: string, default: Option<string> := None): (r: Option<string>)
      ensures HasKey(GetQueryParameters(), key) ==> r == Some(GetQueryParameters().values[key])
      ensures !HasKey(GetQueryParameters(), key) ==> r == default
    {
      if HasKey(getParameters, key) then Some(getParameters.values[key]) else default
    }

    /**
     * `getBodyParameter(key, default)`: the entry of `getBodyParameters()`, else the default.
     * Its result type is a non-null string, so a missing key with a `null` default is a type
     * error in PHP; callers must avoid it.
     */
    function GetBodyParameter(key: string, default: Option<string> := None): (r: string)
      requires HasKey(postParameters, key) || default.Some?
      ensures HasKey(GetBodyParameters(), key) ==> r == GetBodyParameters().values[key]
      ensures !HasKey(GetBodyParameters(), key) ==> r == default.value
    {
      if HasKey(postParameters, key) then postParameters.values[key] else default.value
    }

    /** `getFile(key, default)`: the entry of `getFiles()`, else the default. */
    function GetFile(key: string, default: Option<string> := None): (r: Option<string>)
      ensures HasKey(GetFiles(), key) ==> r == Some(GetFiles().values[key])
      ensures !HasKey(GetFiles(), key) ==> r == default
    {
      if HasKey(files, key) then Some(files.values[key]) else default
    }

    /** `getCookie(key, default)`: the entry of `getCookies()`, else the default. */
    function GetCookie(key: string, default: Option<string> := None): (r: Option<string>)
      ensures HasKey(GetCookies(), key) ==> r == Some(GetCookies().values[key])
      ensures !HasKey(GetCookies(), key) ==> r == default
    {
      if HasKey(cookies, key) then Some(cookies.values[key]) else default
    }

    /**
     * `getParameters()`: `array_merge` of the query and the body parameters. It agrees with
     * `getParameter` at every key: it holds exactly the keys of either source, and at each its
     * value is the one `getParameter` returns (the body wins). The query keys come first in
     * their order, then the new body keys in theirs.
     */
    function GetParameters(): (r: OrderedMap<string>)
      requires postParameters.Valid()
      ensures getParameters.Valid() ==> r.Valid()
      ensures r.keys == getParameters.keys + Unseen(postParameters.keys, getParameters.values)
      ensures forall key :: HasKey(r, key) <==> HasKey(getParameters, key) || HasKey(postParameters, key)
      ensures forall key, default: Option<string> | HasKey(r, key) :: GetParameter(key, default) == Some(r.values[key])
      ensures forall key, default: Option<string> | !HasKey(r, key) :: GetParameter(key, default) == default
    {
      Merge(getParameters, postParameters)
    }

    function GetQueryParameters(): OrderedMap<string> { getParameters }
    function GetBodyParameters(): OrderedMap<string> { postParameters }
    function GetCookies(): OrderedMap<string> { cookies }
    function GetFiles(): OrderedMap<string> { files }
    function GetRawBody(): string { inputStream }

    /**
     * The metadata value at `key`. A lookup succeeds exactly when the variable is present;
     * otherwise it fails with a `MissingRequestMetaVariableException` with code 0, no previous
     * exception, and a message that names the variable.
     */
    function GetServerVariable(key: string): (r: Result<string, Exception>)
      ensures r.Ok? <==> HasKey(server, key)
      ensures r.Ok? ==> r.value == server.values[key]
      ensures r.Err? ==>
        && r.error.className == "MissingRequestMetaVariableException"
        && r.error.code == 0 && r.error.previous.None?
        && r.error.message == "Request meta-variable " + key + " was not set."
        && VariableNameOf(r.error.message) == Some(key)
    {
      if HasKey(server, key) then Ok(server.values[key])
      else Err(MissingRequestMetaVariable(key, Some(0), None))
    }

    function GetUri(): Result<string, Exception> { GetServerVariable("REQUEST_URI") }
    function GetMethod(): Result<string, Exception> { GetServerVariable("REQUEST_METHOD") }
    function GetHttpAccept(): Result<string, Exception> { GetServerVariable("HTTP_ACCEPT") }
    function GetReferer(): Result<string, Exception> { GetServerVariable("HTTP_REFERER") }
    function GetUserAgent(): Result<string, Exception> { GetServerVariable("HTTP_USER_AGENT") }
    function GetIpAddress(): Result<string, Exception> { GetServerVariable("REMOTE_ADDR") }
    function GetQueryString(): Result<string, Exception> { GetServerVariable("QUERY_STRING") }

    /**
     * `getPath()`: the first `strtok` token of the URI on `'?'`. For a URI that is empty or
     * made only of `'?'`, `strtok` returns `false`, which the `string` result type converts to
     * `''`. So the path has no `'?'`, it is empty exactly on such a URI, and otherwise it is
     * the URI's first `'?'`-free run: leading `'?'`s are skipped (`"?a=b"` gives `"a=b"`), and
     * the path runs up to the next `'?'` or the end. For a URI not starting with `'?'` it is the
     * prefix before the first `'?'` (the whole URI when there is none).
     */
    function GetPath(): (r: Result<string, Exception>)
      ensures r.Ok? <==> HasKey(server, "REQUEST_URI")
      ensures r.Err? ==> r == GetUri()
      ensures r.Ok? ==> '?' !in r.value && |r.value| <= |server.values["REQUEST_URI"]|
      ensures r.Ok? ==>
        var uri := server.values["REQUEST_URI"];
        r.value == "" <==> forall i | 0 <= i < |uri| :: uri[i] == '?'
      ensures r.Ok? && r.value != "" ==>
        var uri := server.values["REQUEST_URI"];
        var i := SkipFrom(uri, '?', 0);
        && (forall k | 0 <= k < i :: uri[k] == '?')
        && i + |r.value| <= |uri|
        && r.value == uri[i..i + |r.value|]
        && (i + |r.value| == |uri| || uri[i + |r.value|] == '?')
      ensures r.Ok? && |server.values["REQUEST_URI"]| > 0 && server.values["REQUEST_URI"][0] != '?' ==>
        var uri := server.values["REQUEST_URI"];
        r.value == uri[..|r.value|] && (|r.value| == |uri| || uri[|r.value|] == '?')
    {
      match GetUri()
      case Err(e) => Err(e)
      case Ok(uri) => Ok(StrTok(uri, '?').GetOr(""))
    }

    /** `isSecure()`: an `HTTPS` variable is present and is not `"off"`. */
    predicate IsSecure() {
      HasKey(server, "HTTPS") && server.values["HTTPS"] != "off"
    }
  }

  /** `new HttpRequest(...)` with the raw body left at its default. */
  function NewRequest(getParameters: OrderedMap<string>, postParameters: OrderedMap<string>, cookies: OrderedMap<string>,
                      files: OrderedMap<string>, server: OrderedMap<string>): (r: HttpRequest)
    ensures r.GetRawBody() == ""
    ensures r.GetQueryParameters() == getParameters && r.GetBodyParameters() == postParameters
    ensures r.GetCookies() == cookies && r.GetFiles() == files
  {
    HttpRequest(getParameters, postParameters, cookies, files, server, "")
  }

  /** Each metadata accessor reads its own fixed server variable. */
  lemma AccessorVariables(r: HttpRequest)
    ensures r.GetUri() == r.GetServerVariable("REQUEST_URI")
    ensures r.GetMethod() == r.GetServerVariable("REQUEST_METHOD")
    ensures r.GetHttpAccept() == r.GetServerVariable("HTTP_ACCEPT")
    ensures r.GetReferer() == r.GetServerVariable("HTTP_REFERER")
    ensures r.GetUserAgent() == r.GetServerVariable("HTTP_USER_AGENT")
    ensures r.GetIpAddress() == r.GetServerVariable("REMOTE_ADDR")
    ensures r.GetQueryString() == r.GetServerVariable("QUERY_STRING")
  {
  }

  /** A request is secure exactly when the `HTTPS` lookup succeeds with anything but `"off"`. */
  lemma IsSecureSpec(r: HttpRequest)
    ensures r.IsSecure() <==> r.GetServerVariable("HTTPS").Ok? && r.GetServerVariable("HTTPS").value != "off"
    ensures !HasKey(r.server, "HTTPS") ==> !r.IsSecure()
  {
  }

  /** A path with a query string: `/search?q=x` gives `/search`, and a plain path is its own path. */
  lemma PathDropsQuery(r: HttpRequest, path: string, query: string)
    requires |path| > 0 && '?' !in path
    requires HasKey(r.server, "REQUEST_URI")
    requires r.server.values["REQUEST_URI"] == path + "?" + query || r.server.values["REQUEST_URI"] == path
    ensures r.GetPath() == Ok(path)
  {
    StrTokPrefix(r.server.values["REQUEST_URI"], '?', path, query);
  }
}
