# HTTP request/response model

A Dafny model of the core of a small PHP HTTP library. It covers five classes:

- `HttpResponse` collects a status, headers, cookies and a body. It renders them as the list of header lines the host sends:
  - the status line, in the form of section 3.1.2 of RFC 7230;
  - one `name: value` line per stored header value;
  - one `Set-Cookie:` line per cookie.
- `HttpCookie` is a mutable cookie. It renders as a `Set-Cookie` value in the style of section 4.1 of RFC 6265. The value is percent-encoded as PHP's `rawurlencode` does (sections 2.1 and 2.3 of RFC 3986).
- `CookieBuilder` stamps configurable defaults onto every cookie it builds.
- `HttpRequest` is an immutable view of one request. It offers keyed lookups with defaults, an `array_merge` of the parameters, metadata accessors, `getPath` and `isSecure`. `getPath` keeps the URI's first `?`-free run, so a URI starting with `?` does not give an empty path: `getPath()` of `?a=b` is `a=b`.
- `MissingRequestMetaVariableException` is the error a metadata accessor raises.

## How the model is built

- PHP arrays with string keys are ordered maps. `OrderedMaps.OrderedMap` models one as a sequence of distinct keys plus a map.
  - Assigning to an existing key keeps its position; a new key goes last (`OrderedMaps.Put`).
  - `array_merge` is `OrderedMaps.Merge`.
- `HttpResponse`, `HttpCookie` and `CookieBuilder` change their fields in place, so each is a Dafny `class`.
  - Every method states the new state.
  - `getStandardHeaders` and `getCookieHeaders` are loops, proved against the functions `Responses.StandardLines` and `Responses.CookieLines`.
- A cookie's fields at one moment form the value `Cookies.CookieState`. `getHeaderString` is the pure function `Cookies.HeaderString` of that value.
- `HttpRequest` is `readonly` in PHP, so it is a datatype whose members are functions. No operation can change a request.
- `MissingRequestMetaVariableException` is a value of `MetaErrors.Exception`. A metadata lookup returns `Result<string, Exception>` instead of throwing.
- The current time and the `gmdate` date formatting are parameters (`now`, `gmdate`) of the cookie rendering.
- A PHP string is a byte string. The cookie value is a `seq<ByteChar>` (characters below 256) so that `rawurlencode` can work byte by byte. Other strings are plain `string`.
- The unit tests' scenarios are replayed as methods. They are generalised over the names and values the tests use.

Re-adding a cookie under a name already stored replaces it in place. Like any PHP assignment to an existing key, it keeps the key's position.

The source calls the status line a "request line" (`getRequestLineHeaders`). The model calls it `StatusLine`.

## Model

| member | source | states |
|---|---|---|
| OrderedMaps.Put | src/HttpResponse.php:136-138 | assigning `m[k] = v` updates only `k`'s value; no key moves; a new key goes last; well-formedness is kept |
| OrderedMaps.Merge | src/HttpRequest.php:108 | `array_merge(a, b)` has `a`'s keys, then `b`'s new keys, in order; at a shared key `b`'s value wins |
| Strings.IntToString | src/HttpCookie.php:108 | the rendering is non-empty, ends in a digit, and starts with `-` exactly when the integer is negative |
| Strings.IntToStringCanonical | src/HttpCookie.php:108 | after the optional `-` come the canonical digits: at least one, all decimal, no leading zero |
| Strings.IntToStringRoundTrip | src/HttpCookie.php:108 | reading the rendered integer back gives the integer |
| Strings.IntToStringInjective | src/HttpCookie.php:108 | distinct integers render differently, so `Max-Age=<n>` names a single `n` |
| Strings.StrTok | src/HttpRequest.php:174 | `strtok(s, d)` fails exactly when `s` is all delimiters; otherwise the token is non-empty and free of `d`; the token is the first `d`-free run: it starts after the leading `d`s and ends at the next `d` or at the end; for `s` not starting with `d` it is the prefix before the first `d` |
| Strings.Trim | src/HttpResponse.php:218 | `trim` gives the middle of the line: the run after its leading blanks, with only blanks after it; neither end of the result is a blank, and it is `''` exactly when the line is all blanks |
| Strings.StrTokPrefix | src/HttpRequest.php:174 | `strtok` of `p`, or of `p` + `d` + anything, is `p` when `p` is non-empty and free of `d` |
| RawUrl.DecodeEncode | src/HttpCookie.php:91 | decoding `rawurlencode(s)` gives back `s` for every byte string |
| RawUrl.EncodeDecode | src/HttpCookie.php:91 | every string that decodes is the encoding of what it decodes to, so the encoding is canonical |
| RawUrl.EncodeAlphabet | src/HttpCookie.php:91 | the encoding holds only unreserved characters, `%` and upper-case hexadecimal digits |
| RawUrl.EncodeInjective | src/HttpCookie.php:91 | distinct values have distinct encodings |
| RawUrl.EncodeUnreserved | src/HttpCookie.php:91 | a value made of unreserved characters is its own encoding |
| RawUrl.EncodeRuns | src/HttpCookie.php:91 | around two runs of unreserved characters, only the two bytes that follow them are rewritten |
| RawUrl.EncodeExample | tests/Unit/HttpCookieTest.php:22-23 | `new Value"` encodes as `new%20Value%22` |
| Cookies.HttpCookie.constructor | src/HttpCookie.php:7-15 | a new cookie has its name and value, and no attribute set |
| Cookies.HttpCookie.GetName | src/HttpCookie.php:20-23 | the name is the constructor's; it is a constant field, so no setter can change it |
| Cookies.HttpCookie.SetValue | src/HttpCookie.php:30-33 | only the value changes |
| Cookies.HttpCookie.SetMaxAge | src/HttpCookie.php:40-43 | only the max-age changes, to the given seconds |
| Cookies.HttpCookie.SetDomain | src/HttpCookie.php:50-53 | only the domain changes |
| Cookies.HttpCookie.SetPath | src/HttpCookie.php:60-63 | only the path changes |
| Cookies.HttpCookie.SetSecure | src/HttpCookie.php:70-73 | only the secure flag changes |
| Cookies.HttpCookie.SetHttpOnly | src/HttpCookie.php:80-83 | only the httpOnly flag changes |
| Cookies.HttpCookie.GetHeaderString | src/HttpCookie.php:88-103 | the header string is `name=value`, then the attributes that are set, in their fixed order, joined by `"; "` |
| Cookies.HeaderStringSegments | src/HttpCookie.php:88-103 | `array_filter` drops only the absent parts: the header string is `name=value` and the present attributes in their fixed order, joined by `"; "`, with no empty segment |
| Cookies.HeaderStringNameValueOnly | src/HttpCookie.php:88-103 | with no attribute set, the header string is `name + "=" + rawurlencode(value)` |
| Cookies.NewCookieRendered | src/HttpCookie.php:88-103 | a newly constructed cookie renders as `name=` and its encoded value |
| Cookies.AttributeByInitial | src/HttpCookie.php:90-98 | a segment is rendered only by the part its first letter names (M, e, d, p, s, H), and only when that part is present |
| Cookies.MaxAgeRendered | src/HttpCookie.php:105-111 | `Max-Age=<n>` is rendered exactly when the max-age is `n`, negative values included |
| Cookies.ExpiresRendered | src/HttpCookie.php:113-122 | an `expires=… GMT` segment is rendered exactly when a max-age is set, and it dates `now + max-age` |
| Cookies.RenderedWithMaxAge | src/HttpCookie.php:105-122 | with only a max-age `n` set, the string is `name=value; Max-Age=n; expires=<date of now+n> GMT` |
| Cookies.DomainRendered | src/HttpCookie.php:124-130 | `domain=<d>` is rendered exactly when the domain is `d` and `d` is neither `''` nor `'0'` |
| Cookies.PathRendered | src/HttpCookie.php:132-138 | `path=<p>` is rendered exactly when the path is `p` and `p` is neither `''` nor `'0'` |
| Cookies.SecureRendered | src/HttpCookie.php:140-146 | `secure` is rendered exactly when the flag is set to `true` |
| Cookies.HttpOnlyRendered | src/HttpCookie.php:148-154 | `HttpOnly` is rendered exactly when the flag is set to `true` |
| Cookies.SettersAreLocal | src/HttpCookie.php:30-83 | changing the value leaves every attribute segment unchanged; a flag set to `false` renders exactly as an unset one |
| Cookies.MaxAgeOnlyRendered | tests/Unit/HttpCookieTest.php:26-34 | a new cookie with an unreserved value and only a max-age `n` renders as `name=value; Max-Age=n; expires=<date of now+n> GMT` |
| Cookies.DomainOnlyRendered | tests/Unit/HttpCookieTest.php:36-44 | a new cookie with an unreserved value and only a domain `d` (neither `''` nor `'0'`) renders as `name=value; domain=d` |
| Cookies.PathOnlyRendered | tests/Unit/HttpCookieTest.php:46-54 | a new cookie with an unreserved value and only a path `p` (neither `''` nor `'0'`) renders as `name=value; path=p` |
| Cookies.SecureOnlyRendered | tests/Unit/HttpCookieTest.php:56-70 | a new cookie with an unreserved value and only the secure flag renders `; secure` when it is true and nothing when it is false |
| Cookies.HttpOnlyOnlyRendered | tests/Unit/HttpCookieTest.php:72-86 | a new cookie with an unreserved value and only the httpOnly flag renders `; HttpOnly` when it is true and nothing when it is false |
| Cookies.SetValueScenario | tests/Unit/HttpCookieTest.php:16-24 | after `setValue(v)` the cookie renders as `name=` + `rawurlencode(v)` |
| Cookies.SetMaxAgeScenario | tests/Unit/HttpCookieTest.php:26-34 | after `setMaxAge(n)` the cookie renders as `name=value; Max-Age=n; expires=… GMT` |
| Cookies.SetDomainScenario | tests/Unit/HttpCookieTest.php:36-44 | after `setDomain(d)` the cookie renders as `name=value; domain=d` |
| Cookies.SetPathScenario | tests/Unit/HttpCookieTest.php:46-54 | after `setPath(p)` the cookie renders as `name=value; path=p` |
| Cookies.SetSecureScenario | tests/Unit/HttpCookieTest.php:56-70 | `setSecure(true)` adds `; secure`, and a later `setSecure(false)` removes it |
| Cookies.SetHttpOnlyScenario | tests/Unit/HttpCookieTest.php:72-86 | `setHttpOnly(true)` adds `; HttpOnly`, and a later `setHttpOnly(false)` removes it |
| CookieBuilders.Stamped | src/CookieBuilder.php:32-44 | a built cookie has the given name and value, no max-age, the default path and flags, and a domain only when a default domain is configured |
| CookieBuilders.BuiltDomainRendered | src/CookieBuilder.php:39-41 | a built cookie renders a domain only when a non-empty default domain other than `'0'` was configured |
| CookieBuilders.BuiltPathRendered | src/CookieBuilder.php:35 | a built cookie renders `path=<p>` exactly when `p` is the default path and is neither `''` nor `'0'` |
| CookieBuilders.BuiltFlagsRendered | src/CookieBuilder.php:36-37 | a built cookie renders `secure` and `HttpOnly` exactly when the defaults are true |
| CookieBuilders.FreshBuilderRendering | src/CookieBuilder.php:7-44 | a fresh builder's cookie renders as `name=value; path=/; secure; HttpOnly` |
| CookieBuilders.CookieBuilder.constructor | src/CookieBuilder.php:7-10 | a fresh builder has path `/`, secure and httpOnly true, and no domain |
| CookieBuilders.CookieBuilder.SetDefaultDomain | src/CookieBuilder.php:12-15 | only the default domain changes |
| CookieBuilders.CookieBuilder.SetDefaultPath | src/CookieBuilder.php:17-20 | only the default path changes |
| CookieBuilders.CookieBuilder.SetDefaultSecure | src/CookieBuilder.php:22-25 | only the default secure flag changes |
| CookieBuilders.CookieBuilder.SetDefaultHttpOnly | src/CookieBuilder.php:27-30 | only the default httpOnly flag changes |
| CookieBuilders.CookieBuilder.Build | src/CookieBuilder.php:32-44 | returns a new cookie stamped with the current defaults; the builder is unchanged |
| CookieBuilders.ReconfigureAfterBuild | src/CookieBuilder.php:32-44 | a cookie built earlier keeps the old defaults after the builder is reconfigured; a later cookie takes the new ones |
| MetaErrors.MissingRequestMetaVariable | src/MissingRequestMetaVariableException.php:9-14 | the error has this class, a `null` code becomes 0, another code is kept, and the previous exception is passed through; the message is exactly `Request meta-variable <name> was not set.`, it contains the name, and the name can be read back from it |
| MetaErrors.MessageInjective | src/MissingRequestMetaVariableException.php:10 | two messages are equal exactly when they name the same variable |
| Requests.NewRequest | src/HttpRequest.php:17-25 | the raw body defaults to `''`, and the maps given are the maps returned |
| Requests.HttpRequest.GetParameter | src/HttpRequest.php:32-43 | `getParameter` returns the body value when the body has the key, else the query lookup, else the default |
| Requests.HttpRequest.GetBodyParameter | src/HttpRequest.php:64-71 | the body value when present, else the default |
| Requests.HttpRequest.GetQueryParameter | src/HttpRequest.php:50-57 | the query value when the key is present in the map `getQueryParameters()` returns, else the default |
| Requests.HttpRequest.GetFile | src/HttpRequest.php:78-85 | the file entry when the key is present in the map `getFiles()` returns, else the default |
| Requests.HttpRequest.GetCookie | src/HttpRequest.php:92-99 | the cookie value when the key is present in the map `getCookies()` returns, else the default |
| Requests.HttpRequest.GetParameters | src/HttpRequest.php:106-109 | `getParameters()` has exactly the union of the query and body keys, query keys first; at each key it equals `getParameter`, so the body wins |
| Requests.HttpRequest.GetServerVariable | src/HttpRequest.php:252-259 | a metadata lookup succeeds exactly when the variable is present; otherwise it fails with the missing-variable error, code 0, no previous exception, naming the variable |
| Requests.AccessorVariables | src/HttpRequest.php:164-247 | each accessor reads its own server variable: `REQUEST_URI`, `REQUEST_METHOD`, `HTTP_ACCEPT`, `HTTP_REFERER`, `HTTP_USER_AGENT`, `REMOTE_ADDR`, `QUERY_STRING` |
| Requests.HttpRequest.GetPath | src/HttpRequest.php:172-175 | fails exactly when the URI is missing; the path has no `?` and is no longer than the URI; it is `''` exactly when the URI is empty or all `?`; otherwise it is the URI's first `?`-free run, after any leading `?`s and up to the next `?` or the end; for a URI not starting with `?` it is the prefix before the first `?`, or the whole URI |
| Requests.PathDropsQuery | src/HttpRequest.php:172-175 | for a URI `p?q` or `p`, with `p` non-empty and free of `?`, the path is `p` |
| Requests.IsSecureSpec | src/HttpRequest.php:232-237 | a request is secure exactly when `HTTPS` is present and is not `"off"`; a missing variable means not secure, never an error |
| Responses.StatusText | src/HttpResponse.php:27-88 | a table text exists only for codes 100 to 599, and it is never empty |
| Responses.StatusLineShape | src/HttpResponse.php:207-221 | the trimmed status line is `HTTP/1.1 <code>`, then ` <text>` with trailing blanks removed, or nothing when the text is blank |
| Responses.StatusLineVerbatim | src/HttpResponse.php:207-221 | a text with no trailing blank is kept verbatim; an empty text leaves no trailing space |
| Responses.OkStatusLine | src/HttpResponse.php:8-9 | the initial status renders as `HTTP/1.1 200 OK` |
| Responses.MovedStatusLine | src/HttpResponse.php:42 | status 301 with its table text renders as `HTTP/1.1 301 Moved Permanently` |
| Responses.NameLines | src/HttpResponse.php:233-235 | one `name: value` line per value of a name, in order |
| Responses.CookieLines | src/HttpResponse.php:250-252 | one `Set-Cookie: ` + header string line per cookie, in order |
| Responses.CookieStates | src/HttpResponse.php:250 | the cookies are visited in storage order, each with its current state |
| Responses.StandardLinesLength | src/HttpResponse.php:228-239 | there is one standard line per stored header value |
| Responses.RenderHeaders | src/HttpResponse.php:144-151 | the header list has 1 + the number of stored values + the number of cookies entries |
| Responses.StandardLinesPut | src/HttpResponse.php:232-236 | replacing one name's values replaces exactly that name's lines, in place |
| Responses.AddedHeader | src/HttpResponse.php:121-124 | `addHeader(n, v)` appends `v` to `n`'s list; other names' lists and the name order stay; a new name goes last; well-formedness is kept |
| Responses.SetHeaderTo | src/HttpResponse.php:134-139 | `setHeader(n, v)` makes `n`'s list exactly `[v]`; an existing name keeps its position; a new name goes last; other lists stay; well-formedness is kept |
| Responses.AddHeaderLinesNew | src/HttpResponse.php:121-124 | for a new name, `addHeader` appends the single line `n: v` to the standard lines |
| Responses.AddHeaderLinesExisting | src/HttpResponse.php:121-124 | for an existing name, `addHeader` inserts `n: v` right after that name's lines; every other line stays |
| Responses.SetHeaderLines | src/HttpResponse.php:134-139 | `setHeader` on a stored name puts the single line `n: v` in place of that name's lines |
| Responses.CookieStatesAppend | src/HttpResponse.php:156-159 | a cookie stored under a new name adds its line last |
| Responses.CookieStatesReplace | src/HttpResponse.php:156-159 | a cookie stored under a name already present takes the old cookie's place: no line is added and the others stay |
| Responses.HttpResponse.constructor | src/HttpResponse.php:7-20 | a fresh response has status 200 `OK`, no headers, no cookies and no content |
| Responses.HttpResponse.SetStatusCode | src/HttpResponse.php:95-105 | the code is stored; a `null` text takes the table entry, any other text (`""` included) is stored verbatim |
| Responses.HttpResponse.GetStatusCode | src/HttpResponse.php:110-113 | returns the last code set |
| Responses.HttpResponse.AddHeader | src/HttpResponse.php:121-124 | the headers become `n`'s list with `v` appended |
| Responses.HttpResponse.SetHeader | src/HttpResponse.php:134-139 | the headers have `n`'s list replaced by `[v]` |
| Responses.HttpResponse.AddCookie | src/HttpResponse.php:156-159 | the cookie is stored under its name, replacing any cookie of that name, so there is at most one cookie per name |
| Responses.HttpResponse.DeleteCookie | src/HttpResponse.php:164-169 | the given cookie first gets value `""` and max-age -1, then it is stored as `addCookie` does |
| Responses.HttpResponse.SetContent | src/HttpResponse.php:176-179 | the body becomes the given string |
| Responses.HttpResponse.GetContent | src/HttpResponse.php:184-187 | returns the body set last |
| Responses.HttpResponse.Redirect | src/HttpResponse.php:194-198 | sets the `Location` header to the URL and the status to 301 `Moved Permanently` |
| Responses.HttpResponse.GetHeaders | src/HttpResponse.php:144-151 | the status line, then the standard lines, then the cookie lines |
| Responses.HttpResponse.GetStandardHeaders | src/HttpResponse.php:228-239 | the nested loop yields every stored value as `name: value`, names in order, each name's values in order |
| Responses.HttpResponse.GetCookieHeaders | src/HttpResponse.php:246-255 | the loop yields one `Set-Cookie:` line per stored cookie, in order |
| Responses.DeletedCookieRendered | src/HttpResponse.php:164-169 | a deleted cookie renders as `name=; Max-Age=-1; expires=<date of now-1> GMT` |
| Responses.FreshResponseScenario | src/HttpResponse.php:144-151 | a fresh response's headers are exactly `["HTTP/1.1 200 OK"]` |
| Responses.SetStatusCodeScenario | tests/Unit/HttpResponseTest.php:10-26 | the first line is `HTTP/1.1 <code> <text>`, or `HTTP/1.1 <code>` for an empty text; `getStatusCode` returns the code |
| Responses.AddHeaderScenario | tests/Unit/HttpResponseTest.php:28-41 | two added headers are lines 1 and 2, in order |
| Responses.SetHeaderScenario | tests/Unit/HttpResponseTest.php:43-50 | after add, add, set, the headers are the status line, `n1: v1`, `n2: v3` |
| Responses.AddCookieScenario | tests/Unit/HttpResponseTest.php:52-61 | two cookies give `Set-Cookie` lines 1 and 2, in the order they were added |
| Responses.DeleteCookieScenario | tests/Unit/HttpResponseTest.php:63-69 | deleting through a second cookie of the same name leaves one `Set-Cookie` line, for the deleted cookie |
| Responses.RedirectScenario | tests/Unit/HttpResponseTest.php:78-86 | `redirect(u)` on a fresh response gives exactly `["HTTP/1.1 301 Moved Permanently", "Location: " + u]` |
| Responses.ContentScenario | tests/Unit/HttpResponseTest.php:71-76 | `getContent()` after `setContent(x)` returns `x` |

## Left out

- Wall-clock time and calendar formatting. `time()` and `gmdate("D, d-M-Y H:i:s", …)` are the parameters `now` and `gmdate`. The model fixes only where the date goes and how it is framed (`expires=… GMT`).
- The interfaces `src/Request.php`, `src/Response.php` and `src/Cookie.php`. They hold signatures only.
- Cookies other than `HttpCookie`. Dafny traits are not used, so a response stores `HttpCookie` objects only. The test double of the response tests is not modelled. Its rendering (`name value maxAge`, space-separated) differs from `HttpCookie`'s.
- Responses.AddCookieScenario: checks `HttpCookie`'s `name=value` rendering rather than the test double's `mock1`.
- Responses.DeleteCookieScenario: checks `HttpCookie`'s `name=; Max-Age=-1; expires=… GMT` rather than the test double's `mock1  -1`.
- PHP scalar casts (`(string)`, `(int)`, `(bool)`) in the setters. The parameters are typed instead.
- PHP `TypeError` paths. Each is a precondition:
  - `getContent()` before any `setContent`;
  - `setStatusCode` with a `null` text for a code missing from the table;
  - `getBodyParameter` for a missing key with a `null` default.
- Cookies.ExpiresRendered: PHP integers are 64-bit. When `time() + maxAge` overflows, it becomes a float, `gmdate` rejects it with a `TypeError`, and `getHeaderString` throws. The model's integers are unbounded, so it renders the date of `now + maxAge` for every max-age.
- Integer-like keys. PHP turns a key such as `"42"` into an integer, and `array_merge` renumbers integer keys. The model assumes string keys throughout.
- Request values that are not strings, such as the nested arrays of uploaded files. All values are strings, as the getters' return types say.
- The `Exception` base class: stack traces, `getMessage()`, and the like. The error is a value holding its class name, message, code and previous exception.
- How the host fills the request maps: superglobals and body parsing.
- The protocol version. It is the constant `1.1`, as in the source, which has no setter for it.
- Text encodings. Only the cookie value is a byte string. A non-ASCII cookie value must be given as its bytes for its encoding to match PHP's.
