/**
 * `HttpResponse`: a mutable accumulator of a status, headers, cookies and a
 * body, rendered as the list of header lines the host sends: the status line
 * (section 3.1.2 of RFC 7230), then one `name: value` line per stored header
 * value, then one `Set-Cookie:` line per cookie.
 */
module Responses {
  import opened Wrappers
  import opened Strings
  import opened OrderedMaps
  import opened RawUrl
  import opened Cookies

  const Version := "1.1"

  /**
   * The standard reason phrase of a status code, if it has one: only codes of the five
   * standard classes (100 to 599) have one, and no phrase is empty.
   */
  function StatusText(code: int): (r: Option<string>)
    ensures r.Some? ==> 100 <= code <= 599 && r.value != ""
  {
    match code
    case 100 => Some("Continue")
    case 101 => Some("Switching Protocols")
    case 102 => Some("Processing")
    case 200 => Some("OK")
    case 201 => Some("Created")
    case 202 => Some("Accepted")
    case 203 => Some("Non-Authoritative Information")
    case 204 => Some("No Content")
    case 205 => Some("Reset Content")
    case 206 => Some("Partial Content")
    case 207 => Some("Multi-Status")
    case 208 => Some("Already Reported")
    case 226 => Some("IM Used")
    case 300 => Some("Multiple Choices")
    case 301 => Some("Moved Permanently")
    case 302 => Some("Found")
    case 303 => Some("See Other")
    case 304 => Some("Not Modified")
    case 305 => Some("Use Proxy")
    case 306 => Some("Reserved")
    case 307 => Some("Temporary Redirect")
    case 308 => Some("Permanent Redirect")
    case 400 => Some("Bad Request")
    case 401 => Some("Unauthorized")
    case 402 => Some("Payment Required")
    case 403 => Some("Forbidden")
    case 404 => Some("Not Found")
    case 405 => Some("Method Not Allowed")
    case 406 => Some("Not Acceptable")
    case 407 => Some("Proxy Authentication Required")
    case 408 => Some("Request Timeout")
    case 409 => Some("Conflict")
    case 410 => Some("Gone")
    case 411 => Some("Length Required")
    case 412 => Some("Precondition Failed")
    case 413 => Some("Request Entity Too Large")
    case 414 => Some("Request-URI Too Long")
    case 415 => Some("Unsupported Media Type")
    case 416 => Some("Requested Range Not Satisfiable")
    case 417 => Some("Expectation Failed")
    case 418 => Some("I'm a teapot")
    case 422 => Some("Unprocessable Entity")
    case 423 => Some("Locked")
    case 424 => Some("Failed Dependency")
    case 425 => Some("Reserved for WebDAV advanced collections expired proposal")
    case 426 => Some("Upgrade Required")
    case 428 => Some("Precondition Required")
    case 429 => Some("Too Many Requests")
    case 431 => Some("Request Header Fields Too Large")
    case 500 => Some("Internal Server Error")
    case 501 => Some("Not Implemented")
    case 502 => Some("Bad Gateway")
    case 503 => Some("Service Unavailable")
    case 504 => Some("Gateway Timeout")
    case 505 => Some("HTTP Version Not Supported")
    case 506 => Some("Variant Also Negotiates")
    case 507 => Some("Insufficient Storage")
    case 508 => Some("Loop Detected")
    case 510 => Some("Not Extended")
    case 511 => Some("Network Authentication Required")
    case _ => None
  }

  /** The status line: `trim(sprintf('HTTP/%s %s %s', version, code, text))`, led by "HTTP/1.1 <code>". */
  function StatusLine(code: int, text: string): string {
    Trim(StatusHead(code) + " " + text)
  }

  /** "HTTP/1.1 <code>" */
  function StatusHead(code: int): (r: string)
    ensures r == "HTTP/1.1 " + IntToString(code)
  {
    "HTTP/" + Version + " " + IntToString(code)
  }

  /**
   * Trimming only ever removes the separator before an empty (or blank) reason phrase and
   * the phrase's own trailing blanks: the line is "HTTP/1.1 <code>", followed by " <text>" when
   * the text is not blank.
   */
  lemma StatusLineShape(code: int, text: string)
    ensures StatusLine(code, text) ==
      "HTTP/1.1 " + IntToString(code) + (if TrimRight(text) == "" then "" else " " + TrimRight(text))
  {
    var head := StatusHead(code);
    assert head + " " + text == head + (" " + text);
    HeadIsTrimmed(code, " " + text);
    TrimRightConcat(head, " " + text);
    BlankThenText(text);
  }

  /** The head starts with a letter and ends with a digit, so trimming leaves it alone. */
  lemma HeadIsTrimmed(code: int, rest: string)
    ensures TrimLeft(StatusHead(code) + rest) == StatusHead(code) + rest
    ensures TrimRight(StatusHead(code)) == StatusHead(code)
  {
    var head := StatusHead(code);
    assert (head + rest)[0] == 'H';
    assert head[|head| - 1] == IntToString(code)[|IntToString(code)| - 1];
  }

  lemma BlankThenText(text: string)
    ensures TrimRight(" " + text) == if TrimRight(text) == "" then "" else " " + TrimRight(text)
  {
    TrimRightConcat(" ", text);
    assert TrimRight(" ") == "";
  }

  /** A reason phrase with no trailing blank is kept verbatim; the empty one drops its separator. */
  lemma StatusLineVerbatim(code: int, text: string)
    requires text == "" || !IsTrimmed(text[|text| - 1])
    ensures StatusLine(code, text) == "HTTP/1.1 " + IntToString(code) + (if text == "" then "" else " " + text)
  {
    StatusLineShape(code, text);
  }

  /** One stored header value as a header line. */
  function HeaderLine(name: string, value: string): string {
    name + ": " + value
  }

  /** The lines of one header name: one `name: value` per stored value, in order. */
  function NameLines(name: string, values: seq<string>): (r: seq<string>)
    ensures |r| == |values|
    ensures forall j | 0 <= j < |values| :: r[j] == HeaderLine(name, values[j])
  {
    if values == [] then []
    else NameLines(name, values[..|values| - 1]) + [HeaderLine(name, values[|values| - 1])]
  }

  /** `getStandardHeaders()`: the lines of every header name, names in order. */
  function StandardLines(names: seq<string>, values: map<string, seq<string>>): seq<string>
    requires forall k | k in names :: k in values
  {
    if names == [] then []
    else
      var n := |names| - 1;
      StandardLines(names[..n], values) + NameLines(names[n], values[names[n]])
  }

  /** How many values are stored under the given names. */
  function ValueCount(names: seq<string>, values: map<string, seq<string>>): nat
    requires forall k | k in names :: k in values
  {
    if names == [] then 0 else |values[names[0]]| + ValueCount(names[1..], values)
  }

  /** `getCookieHeaders()`: one `Set-Cookie` line per cookie, in order. */
  function CookieLines(cookies: seq<CookieState>, now: int, gmdate: int -> string): (r: seq<string>)
    ensures |r| == |cookies|
    ensures forall i | 0 <= i < |cookies| :: r[i] == "Set-Cookie: " + HeaderString(cookies[i], now, gmdate)
  {
    if cookies == [] then []
    else CookieLines(cookies[..|cookies| - 1], now, gmdate) + ["Set-Cookie: " + HeaderString(cookies[|cookies| - 1], now, gmdate)]
  }

  /** The states of the cookies stored under the given names, in order. */
  function CookieStates(names: seq<string>, cookies: map<string, HttpCookie>): (r: seq<CookieState>)
    requires forall k | k in names :: k in cookies
    reads cookies.Values
    ensures |r| == |names|
    ensures forall i | 0 <= i < |names| :: r[i] == cookies[names[i]].State()
  {
    if names == [] then []
    else CookieStates(names[..|names| - 1], cookies) + [cookies[names[|names| - 1]].State()]
  }

  /**
   * `getHeaders()`: the three lists, concatenated (`array_merge` of lists); it holds the status
   * line, one line per stored header value and one per cookie.
   */
  function RenderHeaders(code: int, text: string, headers: OrderedMap<seq<string>>, cookies: seq<CookieState>,
                         now: int, gmdate: int -> string): (r: seq<string>)
    requires forall k | k in headers.keys :: k in headers.values
    ensures |r| == 1 + ValueCount(headers.keys, headers.values) + |cookies|
  {
    StandardLinesLength(headers.keys, headers.values);
    [StatusLine(code, text)] + StandardLines(headers.keys, headers.values) + CookieLines(cookies, now, gmdate)
  }

  /**
   * `addHeader(n, v)`, that is `$headers[$name][] = $value`: `n`'s list gains `v` at its end,
   * no other name's list changes, the names keep their order, and a new name goes last.
   */
  function AddedHeader(headers: OrderedMap<seq<string>>, name: string, value: string): (r: OrderedMap<seq<string>>)
    ensures headers.Valid() ==> r.Valid()
    ensures name in r.values
    ensures r.values[name] == (if HasKey(headers, name) then headers.values[name] else []) + [value]
    ensures forall k | k in headers.values && k != name :: k in r.values && r.values[k] == headers.values[k]
    ensures HasKey(headers, name) ==> r.keys == headers.keys
    ensures !HasKey(headers, name) ==> r.keys == headers.keys + [name]
  {
    var r := Put(headers, name, GetOr(headers, name, []) + [value]);
    assert !HasKey(headers, name) ==> r.keys == r.keys[..|headers.keys|] + [r.keys[|headers.keys|]];
    r
  }

  /**
   * `setHeader(n, v)`, that is `$headers[$name] = [$value]`: `n`'s list becomes exactly `[v]`,
   * no other list changes, an existing name keeps its position and a new name goes last.
   */
  function SetHeaderTo(headers: OrderedMap<seq<string>>, name: string, value: string): (r: OrderedMap<seq<string>>)
    ensures headers.Valid() ==> r.Valid()
    ensures name in r.values
    ensures r.values[name] == [value]
    ensures forall k | k in headers.values && k != name :: k in r.values && r.values[k] == headers.values[k]
    ensures HasKey(headers, name) ==> r.keys == headers.keys
    ensures !HasKey(headers, name) ==> r.keys == headers.keys + [name]
  {
    var r := Put(headers, name, [value]);
    assert !HasKey(headers, name) ==> r.keys == r.keys[..|headers.keys|] + [r.keys[|headers.keys|]];
    r
  }

  // Properties of the rendering.

  lemma {:induction false} StandardLinesConcat(a: seq<string>, b: seq<string>, values: map<string, seq<string>>)
    requires forall k | k in a + b :: k in values
    ensures StandardLines(a + b, values) == StandardLines(a, values) + StandardLines(b, values)
    decreases |b|
  {
    if b == [] {
      assert a + b == a;
    } else {
      var n := |b| - 1;
      assert (a + b)[..|a + b| - 1] == a + b[..n];
      StandardLinesConcat(a, b[..n], values);
    }
  }

  /** Changing the values of a name that is not listed changes no line. */
  lemma {:induction false} StandardLinesFrame(names: seq<string>, values: map<string, seq<string>>, k: string, vs: seq<string>)
    requires forall x | x in names :: x in values
    requires k !in names
    ensures StandardLines(names, values[k := vs]) == StandardLines(names, values)
  {
    if names != [] {
      StandardLinesFrame(names[..|names| - 1], values, k, vs);
    }
  }

  /**
   * Replacing the values of the `i`-th name replaces exactly that name's lines, in place:
   * the lines of the names before and after it are unchanged.
   */
  lemma StandardLinesPut(names: seq<string>, values: map<string, seq<string>>, i: nat, vs: seq<string>)
    requires forall x | x in names :: x in values
    requires i < |names|
    requires forall p, q | 0 <= p < q < |names| :: names[p] != names[q]
    ensures StandardLines(names, values[names[i] := vs]) ==
      StandardLines(names[..i], values) + NameLines(names[i], vs) + StandardLines(names[i + 1..], values)
  {
    var k := names[i];
    var v2 := values[k := vs];
    assert names == names[..i] + [k] + names[i + 1..];
    StandardLinesConcat(names[..i] + [k], names[i + 1..], v2);
    StandardLinesConcat(names[..i], [k], v2);
    assert k !in names[..i] by {
      forall p | 0 <= p < i ensures names[..i][p] != k {
        assert names[p] != names[i];
      }
    }
    var rest := names[i + 1..];
    assert k !in rest by {
      forall p | 0 <= p < |rest| ensures rest[p] != k {
        assert rest[p] == names[i + 1 + p];
      }
    }
    StandardLinesFrame(names[..i], values, k, vs);
    StandardLinesFrame(names[i + 1..], values, k, vs);
    assert [k][..0] == [];
    assert StandardLines([k], v2) == NameLines(k, vs);
  }

  /** There is one standard line per stored value. */
  lemma {:induction false} StandardLinesLength(names: seq<string>, values: map<string, seq<string>>)
    requires forall k | k in names :: k in values
    ensures |StandardLines(names, values)| == ValueCount(names, values)
  {
    if names != [] {
      var n := |names| - 1;
      StandardLinesLength(names[..n], values);
      ValueCountSnoc(names, values);
    }
  }

  lemma {:induction false} ValueCountSnoc(names: seq<string>, values: map<string, seq<string>>)
    requires names != []
    requires forall k | k in names :: k in values
    ensures ValueCount(names, values) == ValueCount(names[..|names| - 1], values) + |values[names[|names| - 1]]|
  {
    if |names| > 1 {
      assert names[1..][..|names[1..]| - 1] == names[..|names| - 1][1..];
      ValueCountSnoc(names[1..], values);
    }
  }

  /** A new name's lines go after all the others. */
  lemma StandardLinesAppendName(names: seq<string>, values: map<string, seq<string>>, name: string, vs: seq<string>)
    requires forall k | k in names :: k in values
    requires name !in names
    ensures StandardLines(names + [name], values[name := vs]) == StandardLines(names, values) + NameLines(name, vs)
  {
    StandardLinesFrame(names, values, name, vs);
  }

  lemma NameLinesSnoc(name: string, vs: seq<string>, v: string)
    ensures NameLines(name, vs + [v]) == NameLines(name, vs) + [HeaderLine(name, v)]
  {
    assert (vs + [v])[..|vs|] == vs;
  }

  /** Rendered, `addHeader(n, v)` for a new name appends one line, `n: v`, to the standard lines. */
  lemma AddHeaderLinesNew(headers: OrderedMap<seq<string>>, name: string, value: string)
    requires headers.Listed() && name !in headers.keys && !HasKey(headers, name)
    ensures var r := AddedHeader(headers, name, value);
      && (forall k | k in r.keys :: k in r.values)
      && StandardLines(r.keys, r.values) == StandardLines(headers.keys, headers.values) + [HeaderLine(name, value)]
  {
    var r := AddedHeader(headers, name, value);
    assert r.keys == headers.keys + [name] by {
      assert r.keys == r.keys[..|headers.keys|] + [r.keys[|headers.keys|]];
    }
    assert GetOr(headers, name, []) + [value] == [value];
    assert r.values == headers.values[name := [value]];
    StandardLinesAppendName(headers.keys, headers.values, name, [value]);
    NameLinesSnoc(name, [], value);
    assert [] + [value] == [value];
  }

  /**
   * Rendered, `addHeader(n, v)` for the `i`-th name inserts one line, `n: v`, right after that
   * name's existing lines; every other line stays where it was.
   */
  lemma AddHeaderLinesExisting(headers: OrderedMap<seq<string>>, name: string, value: string, i: nat)
    requires headers.Listed()
    requires i < |headers.keys| && headers.keys[i] == name
    ensures var r := AddedHeader(headers, name, value);
      && (forall k | k in r.keys :: k in r.values)
      && StandardLines(r.keys, r.values) ==
        StandardLines(headers.keys[..i + 1], headers.values) + [HeaderLine(name, value)] +
        StandardLines(headers.keys[i + 1..], headers.values)
  {
    var r := AddedHeader(headers, name, value);
    assert r.keys == headers.keys && r.values == headers.values[name := headers.values[name] + [value]];
    StandardLinesAppendValue(headers.keys, headers.values, i, value);
  }

  lemma StandardLinesAppendValue(names: seq<string>, values: map<string, seq<string>>, i: nat, v: string)
    requires forall x | x in names :: x in values
    requires i < |names|
    requires forall p, q | 0 <= p < q < |names| :: names[p] != names[q]
    ensures StandardLines(names, values[names[i] := values[names[i]] + [v]]) ==
      StandardLines(names[..i + 1], values) + [HeaderLine(names[i], v)] + StandardLines(names[i + 1..], values)
  {
    var name, oldValues := names[i], values[names[i]];
    var before, after := StandardLines(names[..i], values), StandardLines(names[i + 1..], values);
    StandardLinesPut(names, values, i, oldValues + [v]);
    NameLinesSnoc(name, oldValues, v);
    assert names[..i + 1][..i] == names[..i];
    var upTo := StandardLines(names[..i + 1], values);
    assert upTo == before + NameLines(name, oldValues);
    var line := [HeaderLine(name, v)];
    calc {
      StandardLines(names, values[name := oldValues + [v]]);
      before + NameLines(name, oldValues + [v]) + after;
      before + (NameLines(name, oldValues) + line) + after;
      { SeqAssoc(before, NameLines(name, oldValues), line); }
      upTo + line + after;
    }
  }

  lemma SeqAssoc<T>(a: seq<T>, b: seq<T>, c: seq<T>)
    ensures a + (b + c) == (a + b) + c
  {
  }

  /** Rendered, `setHeader(n, v)` on a name with one value replaces its line in place by `n: v`. */
  lemma SetHeaderLines(headers: OrderedMap<seq<string>>, name: string, value: string, i: nat)
    requires headers.Listed()
    requires i < |headers.keys| && headers.keys[i] == name
    ensures var r := SetHeaderTo(headers, name, value);
      && (forall k | k in r.keys :: k in r.values)
      && StandardLines(r.keys, r.values) ==
        StandardLines(headers.keys[..i], headers.values) + [HeaderLine(name, value)] +
        StandardLines(headers.keys[i + 1..], headers.values)
  {
    var r := SetHeaderTo(headers, name, value);
    assert r.keys == headers.keys && r.values == headers.values[name := [value]];
    StandardLinesPut(headers.keys, headers.values, i, [value]);
    NameLinesSnoc(name, [], value);
    assert [] + [value] == [value];
  }

  /** A response: the fields `getHeaders()` renders, plus the body. */
  class HttpResponse {
    var statusCode: int
    var statusText: string
    var headers: OrderedMap<seq<string>>
    var cookies: OrderedMap<HttpCookie>
    var content: Option<string>

    /** Both maps are well formed and each cookie is stored under its own name. */
    ghost predicate Valid()
      reads this`headers, this`cookies
    {
      && headers.Valid()
      && cookies.Valid()
      && (forall k | k in cookies.values :: cookies.values[k].name == k)
    }

    /** The cookies' current states, in storage order. */
    function CookieList(): seq<CookieState>
      requires Valid()
      reads this`headers, this`cookies, cookies.values.Values
    {
      CookieStates(cookies.keys, cookies.values)
    }

    /** What `getHeaders()` returns in the current state. */
    function Headers(now: int, gmdate: int -> string): seq<string>
      requires Valid()
      reads this, cookies.values.Values
    {
      RenderHeaders(statusCode, statusText, headers, CookieList(), now, gmdate)
    }

    constructor ()
      ensures Valid()
      ensures statusCode == 200 && statusText == "OK"
      ensures headers == Empty() && cookies == Empty() && content == None
    {
      statusCode, statusText := 200, "OK";
      headers, cookies := Empty(), Empty();
      content := None;
    }

    /**
     * `setStatusCode(code, text)`: a `null` text is looked up in the table. A `null` text for a
     * code not in the table would assign `null` to a string field, a type error in PHP.
     */
    method SetStatusCode(code: int, text: Option<string>)
      requires text.Some? || StatusText(code).Some?
      modifies this`statusCode, this`statusText
      ensures statusCode == code
      ensures statusText == if text.Some? then text.value else StatusText(code).value
    {
      var t := if text.None? && StatusText(code).Some? then StatusText(code).value else text.value;
      statusCode := code;
      statusText := t;
    }

    method GetStatusCode() returns (r: int)
      ensures r == statusCode
    {
      r := statusCode;
    }

    method AddHeader(name: string, value: string)
      requires Valid()
      modifies this`headers
      ensures Valid()
      ensures headers == AddedHeader(old(headers), name, value)
    {
      headers := AddedHeader(headers, name, value);
    }

    method SetHeader(name: string, value: string)
      requires Valid()
      modifies this`headers
      ensures Valid()
      ensures headers == SetHeaderTo(old(headers), name, value)
    {
      headers := SetHeaderTo(headers, name, value);
    }

    /** `addCookie(c)`: stored under its name, replacing (in place) any cookie of that name. */
    method AddCookie(c: HttpCookie)
      requires Valid()
      modifies this`cookies
      ensures Valid()
      ensures cookies == Put(old(cookies), c.name, c)
    {
      cookies := Put(cookies, c.name, c);
    }

    /** `deleteCookie(c)`: `c` is emptied and given max-age -1, then stored like `addCookie`. */
    method DeleteCookie(c: HttpCookie)
      requires Valid()
      modifies this`cookies, c`value, c`maxAge
      ensures Valid()
      ensures c.State() == old(c.State()).(value := [], maxAge := Some(-1))
      ensures cookies == Put(old(cookies), c.name, c)
    {
      c.SetValue([]);
      c.SetMaxAge(-1);
      cookies := Put(cookies, c.name, c);
    }

    method SetContent(x: string)
      modifies this`content
      ensures content == Some(x)
    {
      content := Some(x);
    }

    /** `getContent()`; before `setContent` it would return `null` from a string method, a type error. */
    method GetContent() returns (r: string)
      requires content.Some?
      ensures r == content.value
    {
      r := content.value;
    }

    /** `redirect(url)`: a `Location` header and status 301 with its table text. */
    method Redirect(url: string)
      requires Valid()
      modifies this`headers, this`statusCode, this`statusText
      ensures Valid()
      ensures headers == SetHeaderTo(old(headers), "Location", url)
      ensures statusCode == 301 && statusText == "Moved Permanently"
    {
      SetHeader("Location", url);
      SetStatusCode(301, None);
    }

    /** `getHeaders()` */
    method GetHeaders(now: int, gmdate: int -> string) returns (lines: seq<string>)
      requires Valid()
      ensures lines == Headers(now, gmdate)
    {
      var standard := GetStandardHeaders();
      var cookieLines := GetCookieHeaders(now, gmdate);
      lines := [StatusLine(statusCode, statusText)] + standard + cookieLines;
    }

    /** `getStandardHeaders()`: walks the names, and each name's values, in order. */
    method GetStandardHeaders() returns (out: seq<string>)
      requires Valid()
      ensures out == StandardLines(headers.keys, headers.values)
    {
      var names, stored := headers.keys, headers.values;
      out := [];
      var i := 0;
      while i < |names|
        invariant 0 <= i <= |names|
        invariant out == StandardLines(names[..i], stored)
      {
        var name := names[i];
        var values := stored[name];
        ghost var before := out;
        var j := 0;
        while j < |values|
          invariant 0 <= j <= |values|
          invariant out == before + NameLines(name, values[..j])
        {
          out := out + [name + ": " + values[j]];
          assert values[..j + 1][..j] == values[..j];
          j := j + 1;
        }
        assert values[..j] == values;
        assert names[..i + 1][..i] == names[..i];
        i := i + 1;
      }
      assert names[..i] == names;
    }

    /** `getCookieHeaders()`: one `Set-Cookie` line per stored cookie, in order. */
    method GetCookieHeaders(now: int, gmdate: int -> string) returns (out: seq<string>)
      requires Valid()
      ensures out == CookieLines(CookieList(), now, gmdate)
    {
      ghost var states := CookieList();
      out := [];
      var i := 0;
      while i < |cookies.keys|
        invariant 0 <= i <= |cookies.keys|
        invariant out == CookieLines(states[..i], now, gmdate)
      {
        assert cookies.keys[i] in cookies.keys;
        var c := cookies.values[cookies.keys[i]];
        assert states[i] == c.State();
        var h := c.GetHeaderString(now, gmdate);
        out := out + ["Set-Cookie: " + h];
        assert states[..i + 1][..i] == states[..i];
        i := i + 1;
      }
      assert states[..i] == states;
    }
  }

  // The response's unit tests, replayed on the class.

  /** A three-digit status code is rendered as its three digits. */
  lemma ThreeDigitCode(code: int)
    requires 100 <= code < 1000
    ensures IntToString(code) == [DigitChar(code / 100), DigitChar(code / 10 % 10), DigitChar(code % 10)]
  {
    var n := code / 10;
    assert n / 10 == code / 100;
    assert NatToString(n) == NatToString(n / 10) + [DigitChar(n % 10)];
    assert NatToString(code) == NatToString(n) + [DigitChar(code % 10)];
  }

  /** The status line of "200 OK". */
  lemma OkStatusLine(code: int, text: string)
    requires code == 200 && text == "OK"
    ensures StatusLine(code, text) == "HTTP/1.1 200 OK"
  {
    CodeDigits(code, "200");
    ReasonPhraseLine(text, "200", "OK", "HTTP/1.1 200 OK");
    StatusLineWithDigits(code, text, "200");
  }

  /** The status line of a code with known digits and a text with no trailing blank. */
  lemma StatusLineWithDigits(code: int, text: string, digits: string)
    requires IntToString(code) == digits
    requires text != "" && !IsTrimmed(text[|text| - 1])
    ensures StatusLine(code, text) == "HTTP/1.1 " + digits + " " + text
  {
    StatusLineVerbatim(code, text);
  }

  /** The reason phrases the tests render end in a letter, and spell out their status lines. */
  lemma ReasonPhraseLine(text: string, digits: string, phrase: string, line: string)
    requires (digits == "200" && phrase == "OK" && line == "HTTP/1.1 200 OK") ||
             (digits == "301" && phrase == "Moved Permanently" && line == "HTTP/1.1 301 Moved Permanently")
    requires text == phrase
    ensures text != "" && !IsTrimmed(text[|text| - 1])
    ensures "HTTP/1.1 " + digits + " " + text == line
  {
  }

  /** The digits of the codes the tests render. */
  lemma CodeDigits(code: int, digits: string)
    requires (code == 200 && digits == "200") || (code == 301 && digits == "301")
    ensures IntToString(code) == digits
  {
    ThreeDigitCode(code);
  }

  /** A fresh response renders only "HTTP/1.1 200 OK". */
  method FreshResponseScenario(now: int, gmdate: int -> string) returns (lines: seq<string>)
    ensures lines == ["HTTP/1.1 200 OK"]
  {
    var r := new HttpResponse();
    lines := r.GetHeaders(now, gmdate);
    assert lines == [StatusLine(200, "OK")];
    OkStatusLine(200, "OK");
  }

  /** `getHeaders()[0]` is the status line. */
  method FirstHeader(r: HttpResponse, now: int, gmdate: int -> string) returns (line: string)
    requires r.Valid()
    ensures line == StatusLine(r.statusCode, r.statusText)
  {
    var lines := r.GetHeaders(now, gmdate);
    line := lines[0];
  }

  /**
   * `setStatusCode` with a given text renders it verbatim, an empty text leaving no trailing
   * blank, and `getStatusCode` returns the code last set.
   */
  method SetStatusCodeScenario(code1: int, text1: string, code2: int, text2: string, now: int, gmdate: int -> string)
    returns (first: string, code: int, second: string, third: string)
    requires text1 != "" && !IsTrimmed(text1[|text1| - 1])
    requires text2 != "" && !IsTrimmed(text2[|text2| - 1])
    ensures first == "HTTP/1.1 " + IntToString(code1) + " " + text1 && code == code1
    ensures second == "HTTP/1.1 " + IntToString(code2) + " " + text2
    ensures third == "HTTP/1.1 " + IntToString(code2)
  {
    var r := new HttpResponse();
    first := SetThenFirstHeader(r, code1, text1, now, gmdate);
    code := r.GetStatusCode();
    second := SetThenFirstHeader(r, code2, text2, now, gmdate);
    third := SetThenFirstHeader(r, code2, "", now, gmdate);
  }

  /** `setStatusCode(code, text)` followed by `getHeaders()[0]`, for a text kept verbatim. */
  method SetThenFirstHeader(r: HttpResponse, code: int, text: string, now: int, gmdate: int -> string)
    returns (line: string)
    requires r.Valid()
    requires text == "" || !IsTrimmed(text[|text| - 1])
    modifies r`statusCode, r`statusText
    ensures r.Valid() && r.statusCode == code
    ensures text != "" ==> line == "HTTP/1.1 " + IntToString(code) + " " + text
    ensures text == "" ==> line == "HTTP/1.1 " + IntToString(code)
  {
    r.SetStatusCode(code, Some(text));
    line := FirstHeader(r, now, gmdate);
    StatusLineVerbatim(code, text);
    if text == "" {
      assert "HTTP/1.1 " + IntToString(code) + "" == "HTTP/1.1 " + IntToString(code);
    }
  }

  /** The status line of a redirect. */
  lemma MovedStatusLine(code: int, text: string)
    requires code == 301 && text == "Moved Permanently"
    ensures StatusLine(code, text) == "HTTP/1.1 301 Moved Permanently"
  {
    CodeDigits(code, "301");
    ReasonPhraseLine(text, "301", "Moved Permanently", "HTTP/1.1 301 Moved Permanently");
    StatusLineWithDigits(code, text, "301");
  }

  /** `redirect(u)` on a fresh response renders exactly the 301 status line and `Location: u`. */
  method RedirectScenario(url: string, now: int, gmdate: int -> string) returns (lines: seq<string>)
    ensures lines == ["HTTP/1.1 301 Moved Permanently", "Location: " + url]
  {
    var r := new HttpResponse();
    r.Redirect(url);
    lines := r.GetHeaders(now, gmdate);
    HeadersWithoutCookies(r, now, gmdate);
    LocationOnly(url);
    MovedStatusLine(301, "Moved Permanently");
  }

  /** A `Location` header set on an empty header map is its only line. */
  lemma LocationOnly(url: string)
    ensures var h := SetHeaderTo(Empty(), "Location", url);
      && (forall k | k in h.keys :: k in h.values)
      && StandardLines(h.keys, h.values) == ["Location: " + url]
  {
    var h := SetHeaderTo(Empty(), "Location", url);
    assert h.keys == ["Location"];
    assert [h.keys[0]][..0] == [];
    OneValueLines("Location", url);
    assert [] + [HeaderLine("Location", url)] == [HeaderLine("Location", url)];
    assert "Location" + ": " == "Location: ";
  }

  /** `setContent(x)` then `getContent()` gives back `x`. */
  method ContentScenario(x: string) returns (y: string)
    ensures y == x
  {
    var r := new HttpResponse();
    r.SetContent(x);
    y := r.GetContent();
  }

  /** Without cookies, the header list is the status line and the standard lines. */
  lemma HeadersWithoutCookies(r: HttpResponse, now: int, gmdate: int -> string)
    requires r.Valid() && r.cookies.keys == []
    ensures r.Headers(now, gmdate) == [StatusLine(r.statusCode, r.statusText)] + StandardLines(r.headers.keys, r.headers.values)
  {
  }

  /** The lines of two names, each with its values. */
  lemma TwoNamesLines(name1: string, name2: string, values: map<string, seq<string>>)
    requires name1 in values && name2 in values
    ensures StandardLines([name1, name2], values) == NameLines(name1, values[name1]) + NameLines(name2, values[name2])
  {
    assert [name1, name2][..1] == [name1];
    assert StandardLines([name1], values) == NameLines(name1, values[name1]) by {
      assert [name1][..0] == [];
      assert [] + NameLines(name1, values[name1]) == NameLines(name1, values[name1]);
    }
  }

  lemma OneValueLines(name: string, value: string)
    ensures NameLines(name, [value]) == [HeaderLine(name, value)]
  {
    NameLinesSnoc(name, [], value);
    assert [] + [value] == [value];
  }

  /** Two values added under two names render as two lines, in order. */
  lemma TwoHeaders(name1: string, value1: string, name2: string, value2: string)
    requires name1 != name2
    ensures var h := AddedHeader(AddedHeader(Empty(), name1, value1), name2, value2);
      && h.keys == [name1, name2]
      && h.values == map[name1 := [value1], name2 := [value2]]
      && StandardLines(h.keys, h.values) == [HeaderLine(name1, value1), HeaderLine(name2, value2)]
  {
    AddedToEmpty(name1, value1);
    AddedToOne(name1, [value1], name2, value2);
    var h := AddedHeader(AddedHeader(Empty(), name1, value1), name2, value2);
    TwoNamesLines(name1, name2, h.values);
    OneValueLines(name1, value1);
    OneValueLines(name2, value2);
  }

  lemma AddedToEmpty(name: string, value: string)
    ensures AddedHeader(Empty(), name, value) == OrderedMap([name], map[name := [value]])
  {
    assert [] + [value] == [value];
  }

  lemma AddedToOne(name1: string, values1: seq<string>, name2: string, value2: string)
    requires name1 != name2
    ensures AddedHeader(OrderedMap([name1], map[name1 := values1]), name2, value2) ==
      OrderedMap([name1, name2], map[name1 := values1, name2 := [value2]])
  {
    assert [] + [value2] == [value2];
  }

  /** Setting the second of two names replaces its line. */
  lemma TwoHeadersThenSet(name1: string, value1: string, name2: string, value2: string, value3: string)
    requires name1 != name2
    ensures var h := SetHeaderTo(OrderedMap([name1, name2], map[name1 := [value1], name2 := [value2]]), name2, value3);
      && h.keys == [name1, name2]
      && StandardLines(h.keys, h.values) == [HeaderLine(name1, value1), HeaderLine(name2, value3)]
  {
    var h := SetHeaderTo(OrderedMap([name1, name2], map[name1 := [value1], name2 := [value2]]), name2, value3);
    assert h.keys == [name1, name2] && h.values == map[name1 := [value1], name2 := [value3]];
    TwoNamesLines(name1, name2, h.values);
    OneValueLines(name1, value1);
    OneValueLines(name2, value3);
  }

  /** A fresh response after `addHeader` under two distinct names. */
  method TwoHeadersResponse(name1: string, value1: string, name2: string, value2: string) returns (r: HttpResponse)
    requires name1 != name2
    ensures fresh(r) && r.Valid()
    ensures r.statusCode == 200 && r.statusText == "OK" && r.cookies.keys == []
    ensures r.headers == OrderedMap([name1, name2], map[name1 := [value1], name2 := [value2]])
    ensures StandardLines(r.headers.keys, r.headers.values) == [HeaderLine(name1, value1), HeaderLine(name2, value2)]
  {
    r := new HttpResponse();
    r.AddHeader(name1, value1);
    r.AddHeader(name2, value2);
    TwoHeaders(name1, value1, name2, value2);
  }

  /** `addHeader` twice with distinct names: each value is rendered on its own line, in order. */
  method AddHeaderScenario(name1: string, value1: string, name2: string, value2: string, now: int, gmdate: int -> string)
    returns (second: string, third: string)
    requires name1 != name2
    ensures second == name1 + ": " + value1
    ensures third == name2 + ": " + value2
  {
    var r := TwoHeadersResponse(name1, value1, name2, value2);
    var lines := r.GetHeaders(now, gmdate);
    HeadersWithoutCookies(r, now, gmdate);
    second, third := lines[1], lines[2];
  }

  /**
   * `setHeader` on the second of two names replaces its line in place:
   * the lines are the status line, `n1: v1`, `n2: v3`.
   */
  method SetHeaderScenario(name1: string, value1: string, name2: string, value2: string, value3: string,
                           now: int, gmdate: int -> string) returns (lines: seq<string>)
    requires name1 != name2
    ensures lines == ["HTTP/1.1 200 OK", name1 + ": " + value1, name2 + ": " + value3]
  {
    var r := TwoHeadersThenSetResponse(name1, value1, name2, value2, value3);
    lines := r.GetHeaders(now, gmdate);
    HeadersWithoutCookies(r, now, gmdate);
    OkStatusLine(200, "OK");
  }

  /** A fresh response after `addHeader` under two distinct names and `setHeader` on the second. */
  method TwoHeadersThenSetResponse(name1: string, value1: string, name2: string, value2: string, value3: string)
    returns (r: HttpResponse)
    requires name1 != name2
    ensures fresh(r) && r.Valid()
    ensures r.statusCode == 200 && r.statusText == "OK" && r.cookies.keys == []
    ensures StandardLines(r.headers.keys, r.headers.values) == [HeaderLine(name1, value1), HeaderLine(name2, value3)]
  {
    r := TwoHeadersResponse(name1, value1, name2, value2);
    r.SetHeader(name2, value3);
    TwoHeadersThenSet(name1, value1, name2, value2, value3);
  }

  /** Storing a cookie under a new name: its state goes last, after the others unchanged. */
  lemma CookieStatesAppend(names: seq<string>, cookies: map<string, HttpCookie>, c: HttpCookie)
    requires forall k | k in names :: k in cookies
    requires c.name !in names
    ensures CookieStates(names + [c.name], cookies[c.name := c]) == CookieStates(names, cookies) + [c.State()]
  {
    var before, after := CookieStates(names, cookies), CookieStates(names + [c.name], cookies[c.name := c]);
    forall i | 0 <= i < |before| ensures after[i] == before[i] {
      assert (names + [c.name])[i] == names[i] != c.name;
    }
  }

  /**
   * Storing a cookie under a name already stored: it takes the old cookie's place, so the
   * list keeps its length and every other cookie's state stays.
   */
  lemma CookieStatesReplace(names: seq<string>, cookies: map<string, HttpCookie>, c: HttpCookie)
    requires forall k | k in names :: k in cookies
    ensures |CookieStates(names, cookies[c.name := c])| == |CookieStates(names, cookies)|
    ensures forall i | 0 <= i < |names| ::
      CookieStates(names, cookies[c.name := c])[i] == if names[i] == c.name then c.State() else CookieStates(names, cookies)[i]
  {
  }

  /** A response whose status and headers are untouched renders "HTTP/1.1 200 OK" and its cookie lines. */
  lemma HeadersOfCookiesOnly(r: HttpResponse, now: int, gmdate: int -> string)
    requires r.Valid() && r.statusCode == 200 && r.statusText == "OK" && r.headers.keys == []
    ensures r.Headers(now, gmdate) == ["HTTP/1.1 200 OK"] + CookieLines(r.CookieList(), now, gmdate)
  {
    OkStatusLine(200, "OK");
  }

  /** Adds two new cookies of distinct names to a fresh response. */
  method AddTwoCookies(name1: string, value1: seq<ByteChar>, name2: string, value2: seq<ByteChar>)
    returns (r: HttpResponse)
    requires name1 != name2
    ensures r.Valid() && r.statusCode == 200 && r.statusText == "OK" && r.headers.keys == []
    ensures r.CookieList() == [NewState(name1, value1), NewState(name2, value2)]
  {
    r := new HttpResponse();
    var c1 := new HttpCookie(name1, value1);
    var c2 := new HttpCookie(name2, value2);
    r.AddCookie(c1);
    r.AddCookie(c2);
    assert r.cookies.keys == [name1, name2];
  }

  /** Two cookies of distinct names: one `Set-Cookie` line each, in the order they were added. */
  method AddCookieScenario(name1: string, value1: seq<ByteChar>, name2: string, value2: seq<ByteChar>,
                           now: int, gmdate: int -> string) returns (second: string, third: string)
    requires name1 != name2
    ensures second == "Set-Cookie: " + name1 + "=" + Encode(value1)
    ensures third == "Set-Cookie: " + name2 + "=" + Encode(value2)
  {
    var r := AddTwoCookies(name1, value1, name2, value2);
    var lines := r.GetHeaders(now, gmdate);
    HeadersOfCookiesOnly(r, now, gmdate);
    NewCookieLines(name1, value1, name2, value2, now, gmdate);
    second, third := lines[1], lines[2];
  }

  /** The lines of two cookies with no attribute set. */
  lemma NewCookieLines(name1: string, value1: seq<ByteChar>, name2: string, value2: seq<ByteChar>, now: int, gmdate: int -> string)
    ensures CookieLines([NewState(name1, value1), NewState(name2, value2)], now, gmdate) ==
      ["Set-Cookie: " + name1 + "=" + Encode(value1), "Set-Cookie: " + name2 + "=" + Encode(value2)]
  {
    NewCookieRendered(name1, value1, now, gmdate);
    NewCookieRendered(name2, value2, now, gmdate);
    assert "Set-Cookie: " + (name1 + "=" + Encode(value1)) == "Set-Cookie: " + name1 + "=" + Encode(value1);
    assert "Set-Cookie: " + (name2 + "=" + Encode(value2)) == "Set-Cookie: " + name2 + "=" + Encode(value2);
  }

  /** Adds a cookie to a fresh response, then deletes it through a second cookie of the same name. */
  method AddThenDelete(name: string, value1: seq<ByteChar>, value2: seq<ByteChar>) returns (r: HttpResponse)
    ensures r.Valid() && r.statusCode == 200 && r.statusText == "OK" && r.headers.keys == []
    ensures r.CookieList() == [CookieState(name, [], Some(-1), None, None, None, None)]
  {
    r := new HttpResponse();
    var c1 := new HttpCookie(name, value1);
    var c2 := new HttpCookie(name, value2);
    r.AddCookie(c1);
    r.DeleteCookie(c2);
    assert r.cookies.keys == [name];
  }

  /** A deleted cookie: empty value, `Max-Age=-1`, and an expiry one second before `now`. */
  lemma DeletedCookieRendered(st: CookieState, now: int, gmdate: int -> string)
    requires st == CookieState(st.name, [], Some(-1), None, None, None, None)
    ensures HeaderString(st, now, gmdate) ==
      Implode("; ", [st.name + "=", "Max-Age=" + IntToString(-1), "expires=" + gmdate(now - 1) + " GMT"])
  {
    RenderedWithMaxAge(st, now, gmdate, -1);
    assert Encode(st.value) == [];
  }

  /**
   * Deleting a cookie by a second object of the same name replaces the stored one: a single
   * `Set-Cookie` line with an empty value, `Max-Age=-1` and an expiry one second ago.
   */
  method DeleteCookieScenario(name: string, value1: seq<ByteChar>, value2: seq<ByteChar>, now: int, gmdate: int -> string)
    returns (lines: seq<string>)
    ensures lines == ["HTTP/1.1 200 OK",
      "Set-Cookie: " + Implode("; ", [name + "=", "Max-Age=" + IntToString(-1), "expires=" + gmdate(now - 1) + " GMT"])]
  {
    var r := AddThenDelete(name, value1, value2);
    lines := r.GetHeaders(now, gmdate);
    HeadersOfCookiesOnly(r, now, gmdate);
    DeletedCookieRendered(CookieState(name, [], Some(-1), None, None, None, None), now, gmdate);
  }
}
