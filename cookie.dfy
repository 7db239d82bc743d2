/**
 * A cookie (`HttpCookie`): a fixed name, a value, and attributes that are each
 * either unset or set; and its rendering as the value of a `Set-Cookie` header,
 * in the style of section 4.1 of RFC 6265.
 */
module Cookies {
  import opened Wrappers
  import opened Strings
  import opened RawUrl

  /** The fields of a cookie at one moment; `None` is PHP's `null` (attribute never set). */
  datatype CookieState = CookieState(
    name: string,
    value: seq<ByteChar>,
    maxAge: Option<int>,
    domain: Option<string>,
    path: Option<string>,
    secure: Option<bool>,
    httpOnly: Option<bool>)

  /** A cookie just constructed: name and value, no attribute set. */
  function NewState(name: string, value: seq<ByteChar>): CookieState {
    CookieState(name, value, None, None, None, None, None)
  }

  // The parts of the header string, each `null` when absent.

  function NameValuePart(st: CookieState): string {
    st.name + "=" + Encode(st.value)
  }

  function MaxAgePart(st: CookieState): Option<string> {
    if st.maxAge.Some? then Some("Max-Age=" + IntToString(st.maxAge.value)) else None
  }

  /** `gmdate` renders a Unix time as "D, d-M-Y H:i:s"; `now` is the current Unix time. */
  function ExpiresPart(st: CookieState, now: int, gmdate: int -> string): Option<string> {
    if st.maxAge.Some? then Some("expires=" + gmdate(now + st.maxAge.value) + " GMT") else None
  }

  /** A text attribute is rendered unless unset, `''` or `'0'`. */
  function TextPart(prefix: string, attr: Option<string>): Option<string> {
    if attr.Some? && attr.value != "" && attr.value != "0" then Some(prefix + attr.value) else None
  }

  /** A flag is rendered only when set to exactly `true`. */
  function FlagPart(attrName: string, flag: Option<bool>): Option<string> {
    if flag == Some(true) then Some(attrName) else None
  }

  function DomainPart(st: CookieState): Option<string> {
    TextPart("domain=", st.domain)
  }

  function PathPart(st: CookieState): Option<string> {
    TextPart("path=", st.path)
  }

  function SecurePart(st: CookieState): Option<string> {
    FlagPart("secure", st.secure)
  }

  function HttpOnlyPart(st: CookieState): Option<string> {
    FlagPart("HttpOnly", st.httpOnly)
  }

  /** The attribute parts, in their fixed order. */
  function AttributeParts(st: CookieState, now: int, gmdate: int -> string): seq<Option<string>> {
    [MaxAgePart(st), ExpiresPart(st, now, gmdate), DomainPart(st), PathPart(st), SecurePart(st), HttpOnlyPart(st)]
  }

  /** The array `getHeaderString` builds before filtering. */
  function Parts(st: CookieState, now: int, gmdate: int -> string): seq<Option<string>> {
    [Some(NameValuePart(st))] + AttributeParts(st, now, gmdate)
  }

  /** PHP truthiness of a string or `null`: `null`, `''` and `'0'` are false. */
  predicate IsTruthy(p: Option<string>) {
    p.Some? && p.value != "" && p.value != "0"
  }

  /** `array_filter(parts)` without a callback: keeps the truthy entries, in order. */
  function ArrayFilter(parts: seq<Option<string>>): seq<string> {
    if parts == [] then []
    else (if IsTruthy(parts[0]) then [parts[0].value] else []) + ArrayFilter(parts[1..])
  }

  /** `getHeaderString()` */
  function HeaderString(st: CookieState, now: int, gmdate: int -> string): string {
    Implode("; ", ArrayFilter(Parts(st, now, gmdate)))
  }

  // The intended reading: the present parts, joined.

  /** The entries that are not `null`, in order. */
  function Present(parts: seq<Option<string>>): (r: seq<string>)
    ensures |r| <= |parts|
  {
    if parts == [] then []
    else (if parts[0].Some? then [parts[0].value] else []) + Present(parts[1..])
  }

  /** The attribute segments the cookie renders, in order. */
  function Attributes(st: CookieState, now: int, gmdate: int -> string): seq<string> {
    Present(AttributeParts(st, now, gmdate))
  }

  lemma {:induction false} PresentMember(parts: seq<Option<string>>, x: string)
    ensures x in Present(parts) <==> Some(x) in parts
  {
    if parts != [] {
      PresentMember(parts[1..], x);
      assert parts == [parts[0]] + parts[1..];
    }
  }

  lemma {:induction false} FilterKeepsPresent(parts: seq<Option<string>>)
    requires forall i | 0 <= i < |parts| :: parts[i].Some? ==> IsTruthy(parts[i])
    ensures ArrayFilter(parts) == Present(parts)
  {
    if parts != [] {
      FilterKeepsPresent(parts[1..]);
    }
  }

  /** Every part that is present is truthy: it contains "=" or starts with a letter. */
  lemma PartsTruthy(st: CookieState, now: int, gmdate: int -> string)
    ensures forall i | 0 <= i < 7 :: Parts(st, now, gmdate)[i].Some? ==> IsTruthy(Parts(st, now, gmdate)[i])
  {
    var parts := Parts(st, now, gmdate);
    forall i | 0 <= i < 7 && parts[i].Some? ensures IsTruthy(parts[i]) {
      var x := parts[i].value;
      if i == 0 {
        assert x[|st.name|] == '=';
      } else {
        assert x[0] in "MedpsH";
      }
    }
  }

  /**
   * `array_filter` only drops the absent parts: the header string is the name=value pair
   * followed by the present attributes in their fixed order, joined by "; ", and no
   * segment is empty.
   */
  lemma HeaderStringSegments(st: CookieState, now: int, gmdate: int -> string)
    ensures HeaderString(st, now, gmdate) == Implode("; ", [NameValuePart(st)] + Attributes(st, now, gmdate))
    ensures forall a | a in Attributes(st, now, gmdate) :: a != ""
  {
    var parts := Parts(st, now, gmdate);
    var attrs := AttributeParts(st, now, gmdate);
    PartsTruthy(st, now, gmdate);
    FilterKeepsPresent(parts);
    assert parts[1..] == attrs;
    assert Present(parts) == [NameValuePart(st)] + Present(attrs);
    forall a | a in Attributes(st, now, gmdate) ensures a != "" {
      PresentMember(attrs, a);
    }
  }

  /** With no attribute set, the header string is the name, "=", and the encoded value. */
  lemma HeaderStringNameValueOnly(st: CookieState, now: int, gmdate: int -> string)
    requires st.maxAge.None? && st.domain.None? && st.path.None? && st.secure.None? && st.httpOnly.None?
    ensures HeaderString(st, now, gmdate) == st.name + "=" + Encode(st.value)
  {
    HeaderStringSegments(st, now, gmdate);
    var attrs := AttributeParts(st, now, gmdate);
    assert attrs == [None, None, None, None, None, None];
    if Present(attrs) != [] {
      var x := Present(attrs)[0];
      PresentMember(attrs, x);
      assert false;
    }
  }

  /**
   * The attribute parts start with distinct letters (M, e, d, p, s, H), so a segment is
   * rendered by at most one of them, the one its first letter names.
   */
  lemma AttributeByInitial(st: CookieState, now: int, gmdate: int -> string, x: string)
    ensures x in Attributes(st, now, gmdate) <==>
      || (|x| > 0 && x[0] == 'M' && MaxAgePart(st) == Some(x))
      || (|x| > 0 && x[0] == 'e' && ExpiresPart(st, now, gmdate) == Some(x))
      || (|x| > 0 && x[0] == 'd' && DomainPart(st) == Some(x))
      || (|x| > 0 && x[0] == 'p' && PathPart(st) == Some(x))
      || (|x| > 0 && x[0] == 's' && SecurePart(st) == Some(x))
      || (|x| > 0 && x[0] == 'H' && HttpOnlyPart(st) == Some(x))
  {
    var attrs := AttributeParts(st, now, gmdate);
    PresentMember(attrs, x);
    assert Some(x) in attrs <==>
      MaxAgePart(st) == Some(x) || ExpiresPart(st, now, gmdate) == Some(x) || DomainPart(st) == Some(x) ||
      PathPart(st) == Some(x) || SecurePart(st) == Some(x) || HttpOnlyPart(st) == Some(x);
  }

  /** `Max-Age=<n>` is rendered exactly when the max-age is `n`, negative values included. */
  lemma MaxAgeRendered(st: CookieState, now: int, gmdate: int -> string, n: int)
    ensures ("Max-Age=" + IntToString(n)) in Attributes(st, now, gmdate) <==> st.maxAge == Some(n)
  {
    var x := "Max-Age=" + IntToString(n);
    AttributeByInitial(st, now, gmdate, x);
    if MaxAgePart(st) == Some(x) {
      assert x[8..] == IntToString(n);
      assert x[8..] == IntToString(st.maxAge.value);
      IntToStringInjective(n, st.maxAge.value);
    }
  }

  /** A segment framed as an expiry date. */
  predicate IsExpires(a: string) {
    |a| >= 12 && a[..8] == "expires=" && a[|a| - 4..] == " GMT"
  }

  /** An `expires=… GMT` attribute is rendered exactly when a max-age is set, and then it dates `now + max-age`. */
  lemma ExpiresRendered(st: CookieState, now: int, gmdate: int -> string)
    ensures (exists a | a in Attributes(st, now, gmdate) :: IsExpires(a)) <==> st.maxAge.Some?
    ensures st.maxAge.Some? ==>
      ("expires=" + gmdate(now + st.maxAge.value) + " GMT") in Attributes(st, now, gmdate)
  {
    if st.maxAge.Some? {
      var x := "expires=" + gmdate(now + st.maxAge.value) + " GMT";
      AttributeByInitial(st, now, gmdate, x);
      assert IsExpires(x);
    } else {
      forall a | a in Attributes(st, now, gmdate) ensures !IsExpires(a) {
        AttributeByInitial(st, now, gmdate, a);
      }
    }
  }

  /** `domain=<d>` is rendered exactly when the domain is `d` and `d` is neither `''` nor `'0'`. */
  lemma DomainRendered(st: CookieState, now: int, gmdate: int -> string, d: string)
    ensures ("domain=" + d) in Attributes(st, now, gmdate) <==> st.domain == Some(d) && d != "" && d != "0"
  {
    var x := "domain=" + d;
    AttributeByInitial(st, now, gmdate, x);
    if DomainPart(st) == Some(x) {
      assert x[7..] == d;
    }
  }

  /** `path=<p>` is rendered exactly when the path is `p` and `p` is neither `''` nor `'0'`. */
  lemma PathRendered(st: CookieState, now: int, gmdate: int -> string, p: string)
    ensures ("path=" + p) in Attributes(st, now, gmdate) <==> st.path == Some(p) && p != "" && p != "0"
  {
    var x := "path=" + p;
    AttributeByInitial(st, now, gmdate, x);
    if PathPart(st) == Some(x) {
      assert x[5..] == p;
    }
  }

  /** `secure` is rendered exactly when the flag is set to `true`. */
  lemma SecureRendered(st: CookieState, now: int, gmdate: int -> string)
    ensures "secure" in Attributes(st, now, gmdate) <==> st.secure == Some(true)
  {
    AttributeByInitial(st, now, gmdate, "secure");
  }

  /** `HttpOnly` is rendered exactly when the flag is set to `true`. */
  lemma HttpOnlyRendered(st: CookieState, now: int, gmdate: int -> string)
    ensures "HttpOnly" in Attributes(st, now, gmdate) <==> st.httpOnly == Some(true)
  {
    AttributeByInitial(st, now, gmdate, "HttpOnly");
  }

  /**
   * Each setter touches one part: changing the value changes only the name=value part, and a
   * flag set to `false` renders exactly as an unset one.
   */
  lemma SettersAreLocal(st: CookieState, now: int, gmdate: int -> string, v: seq<ByteChar>)
    ensures Attributes(st.(value := v), now, gmdate) == Attributes(st, now, gmdate)
    ensures HeaderString(st.(secure := Some(false)), now, gmdate) == HeaderString(st.(secure := None), now, gmdate)
    ensures HeaderString(st.(httpOnly := Some(false)), now, gmdate) == HeaderString(st.(httpOnly := None), now, gmdate)
  {
  }

  /** A mutable cookie; the name is fixed at construction. */
  class HttpCookie {
    const name: string
    var value: seq<ByteChar>
    var maxAge: Option<int>
    var domain: Option<string>
    var path: Option<string>
    var secure: Option<bool>
    var httpOnly: Option<bool>

    function State(): CookieState
      reads this
    {
      CookieState(name, value, maxAge, domain, path, secure, httpOnly)
    }

    constructor (name: string, value: seq<ByteChar>)
      ensures State() == NewState(name, value)
    {
      this.name := name;
      this.value := value;
      maxAge, domain, path, secure, httpOnly := None, None, None, None, None;
    }

    function GetName(): (r: string)
      ensures r == State().name
    {
      name
    }

    method SetValue(value: seq<ByteChar>)
      modifies this`value
      ensures State() == old(State()).(value := value)
    {
      this.value := value;
    }

    method SetMaxAge(seconds: int)
      modifies this`maxAge
      ensures State() == old(State()).(maxAge := Some(seconds))
    {
      maxAge := Some(seconds);
    }

    method SetDomain(domain: string)
      modifies this`domain
      ensures State() == old(State()).(domain := Some(domain))
    {
      this.domain := Some(domain);
    }

    method SetPath(path: string)
      modifies this`path
      ensures State() == old(State()).(path := Some(path))
    {
      this.path := Some(path);
    }

    method SetSecure(secure: bool)
      modifies this`secure
      ensures State() == old(State()).(secure := Some(secure))
    {
      this.secure := Some(secure);
    }

    method SetHttpOnly(httpOnly: bool)
      modifies this`httpOnly
      ensures State() == old(State()).(httpOnly := Some(httpOnly))
    {
      this.httpOnly := Some(httpOnly);
    }

    /** `getHeaderString()`: `name=value`, then the attributes that are set, joined by `"; "`. */
    function GetHeaderString(now: int, gmdate: int -> string): (r: string)
      reads this
      ensures r == Implode("; ", [NameValuePart(State())] + Attributes(State(), now, gmdate))
    {
      HeaderStringSegments(State(), now, gmdate);
      HeaderString(State(), now, gmdate)
    }
  }

  // The rendering checks of the cookie's unit tests, replayed on the class.

  lemma NameValueUnreserved(st: CookieState)
    requires forall i | 0 <= i < |st.value| :: IsUnreserved(st.value[i])
    ensures NameValuePart(st) == st.name + "=" + st.value
  {
    EncodeUnreserved(st.value);
  }

  /** With every attribute part absent, only the name=value pair is rendered. */
  lemma RenderedBare(st: CookieState, now: int, gmdate: int -> string)
    requires forall j | 0 <= j < 6 :: AttributeParts(st, now, gmdate)[j].None?
    ensures HeaderString(st, now, gmdate) == NameValuePart(st)
  {
    var attrs := AttributeParts(st, now, gmdate);
    HeaderStringSegments(st, now, gmdate);
    if Present(attrs) != [] {
      var x := Present(attrs)[0];
      PresentMember(attrs, x);
      assert false;
    }
  }

  /** With exactly one attribute part present, it follows the name=value pair. */
  lemma RenderedWithOne(st: CookieState, now: int, gmdate: int -> string, i: nat, x: string)
    requires i < 6 && AttributeParts(st, now, gmdate)[i] == Some(x)
    requires forall j | 0 <= j < 6 && j != i :: AttributeParts(st, now, gmdate)[j].None?
    ensures HeaderString(st, now, gmdate) == NameValuePart(st) + "; " + x
  {
    var attrs := AttributeParts(st, now, gmdate);
    HeaderStringSegments(st, now, gmdate);
    assert attrs == attrs[..i] + [Some(x)] + attrs[i + 1..];
    PresentOnly(attrs[..i], Some(x), attrs[i + 1..]);
  }

  lemma {:induction false} PresentNone(parts: seq<Option<string>>)
    requires forall j | 0 <= j < |parts| :: parts[j].None?
    ensures Present(parts) == []
  {
    if parts != [] {
      PresentNone(parts[1..]);
    }
  }

  lemma {:induction false} PresentConcat(a: seq<Option<string>>, b: seq<Option<string>>)
    ensures Present(a + b) == Present(a) + Present(b)
  {
    if a == [] {
      assert a + b == b;
    } else {
      assert (a + b)[1..] == a[1..] + b;
      PresentConcat(a[1..], b);
    }
  }

  lemma PresentOnly(a: seq<Option<string>>, p: Option<string>, b: seq<Option<string>>)
    requires p.Some?
    requires forall j | 0 <= j < |a| :: a[j].None?
    requires forall j | 0 <= j < |b| :: b[j].None?
    ensures Present(a + [p] + b) == [p.value]
  {
    PresentConcat(a + [p], b);
    PresentConcat(a, [p]);
    PresentNone(a);
    PresentNone(b);
  }

  /** After `setValue(v)` a cookie with no attribute renders as its name, "=", and `v` percent-encoded. */
  method SetValueScenario(name: string, value: seq<ByteChar>, now: int, gmdate: int -> string) returns (h: string)
    ensures h == name + "=" + Encode(value)
  {
    var c := new HttpCookie(name, "value");
    c.SetValue(value);
    h := c.GetHeaderString(now, gmdate);
    NewCookieRendered(name, value, now, gmdate);
    assert c.State() == NewState(name, value);
  }

  /** A cookie with no attribute set renders as its name, "=", and its value percent-encoded. */
  lemma NewCookieRendered(name: string, value: seq<ByteChar>, now: int, gmdate: int -> string)
    ensures HeaderString(NewState(name, value), now, gmdate) == name + "=" + Encode(value)
  {
    RenderedBare(NewState(name, value), now, gmdate);
  }

  /** With only a max-age set, the pair is followed by `Max-Age=<n>` and the expiry date of `now + n`. */
  lemma RenderedWithMaxAge(st: CookieState, now: int, gmdate: int -> string, n: int)
    requires st.maxAge == Some(n)
    requires st.domain.None? && st.path.None? && st.secure.None? && st.httpOnly.None?
    ensures HeaderString(st, now, gmdate) ==
      Implode("; ", [NameValuePart(st), "Max-Age=" + IntToString(n), "expires=" + gmdate(now + n) + " GMT"])
  {
    var attrs := AttributeParts(st, now, gmdate);
    var maxAge, expires := "Max-Age=" + IntToString(n), "expires=" + gmdate(now + n) + " GMT";
    HeaderStringSegments(st, now, gmdate);
    PresentNone(attrs[2..]);
    assert attrs[1..][1..] == attrs[2..];
    assert Present(attrs[1..]) == [expires];
    assert Attributes(st, now, gmdate) == [maxAge, expires];
    assert [NameValuePart(st)] + [maxAge, expires] == [NameValuePart(st), maxAge, expires];
  }

  /** A new cookie with an unreserved value and a max-age: `name=value; Max-Age=<n>; expires=<date of now + n> GMT`. */
  lemma MaxAgeOnlyRendered(name: string, value: seq<ByteChar>, n: int, now: int, gmdate: int -> string)
    requires forall i | 0 <= i < |value| :: IsUnreserved(value[i])
    ensures HeaderString(NewState(name, value).(maxAge := Some(n)), now, gmdate) ==
      Implode("; ", [name + "=" + value, "Max-Age=" + IntToString(n), "expires=" + gmdate(now + n) + " GMT"])
  {
    var st := NewState(name, value).(maxAge := Some(n));
    RenderedWithMaxAge(st, now, gmdate, n);
    NameValueUnreserved(st);
  }

  /** A max-age renders as `Max-Age=<n>` followed by the expiry date `now + n`. */
  method SetMaxAgeScenario(name: string, value: seq<ByteChar>, seconds: int, now: int, gmdate: int -> string)
    returns (h: string)
    requires forall i | 0 <= i < |value| :: IsUnreserved(value[i])
    ensures h == Implode("; ", [name + "=" + value, "Max-Age=" + IntToString(seconds), "expires=" + gmdate(now + seconds) + " GMT"])
  {
    var c := new HttpCookie(name, value);
    c.SetMaxAge(seconds);
    h := c.GetHeaderString(now, gmdate);
    MaxAgeOnlyRendered(name, value, seconds, now, gmdate);
  }

  /** A new cookie with an unreserved value and a domain: `name=value; domain=<d>`. */
  lemma DomainOnlyRendered(name: string, value: seq<ByteChar>, domain: string, now: int, gmdate: int -> string)
    requires forall i | 0 <= i < |value| :: IsUnreserved(value[i])
    requires domain != "" && domain != "0"
    ensures HeaderString(NewState(name, value).(domain := Some(domain)), now, gmdate) ==
      name + "=" + value + "; domain=" + domain
  {
    var st := NewState(name, value).(domain := Some(domain));
    RenderedWithOne(st, now, gmdate, 2, "domain=" + domain);
    NameValueUnreserved(st);
    assert NameValuePart(st) + "; " + ("domain=" + domain) == name + "=" + value + "; domain=" + domain;
  }

  method SetDomainScenario(name: string, value: seq<ByteChar>, domain: string, now: int, gmdate: int -> string)
    returns (h: string)
    requires forall i | 0 <= i < |value| :: IsUnreserved(value[i])
    requires domain != "" && domain != "0"
    ensures h == name + "=" + value + "; domain=" + domain
  {
    var c := new HttpCookie(name, value);
    c.SetDomain(domain);
    h := c.GetHeaderString(now, gmdate);
    DomainOnlyRendered(name, value, domain, now, gmdate);
  }

  /** A new cookie with an unreserved value and a path: `name=value; path=<p>`. */
  lemma PathOnlyRendered(name: string, value: seq<ByteChar>, path: string, now: int, gmdate: int -> string)
    requires forall i | 0 <= i < |value| :: IsUnreserved(value[i])
    requires path != "" && path != "0"
    ensures HeaderString(NewState(name, value).(path := Some(path)), now, gmdate) ==
      name + "=" + value + "; path=" + path
  {
    var st := NewState(name, value).(path := Some(path));
    RenderedWithOne(st, now, gmdate, 3, "path=" + path);
    NameValueUnreserved(st);
    assert NameValuePart(st) + "; " + ("path=" + path) == name + "=" + value + "; path=" + path;
  }

  method SetPathScenario(name: string, value: seq<ByteChar>, path: string, now: int, gmdate: int -> string)
    returns (h: string)
    requires forall i | 0 <= i < |value| :: IsUnreserved(value[i])
    requires path != "" && path != "0"
    ensures h == name + "=" + value + "; path=" + path
  {
    var c := new HttpCookie(name, value);
    c.SetPath(path);
    h := c.GetHeaderString(now, gmdate);
    PathOnlyRendered(name, value, path, now, gmdate);
  }

  /** A new cookie with an unreserved value and `secure` set: `; secure` follows the pair exactly when it is true. */
  lemma SecureOnlyRendered(name: string, value: seq<ByteChar>, on: bool, now: int, gmdate: int -> string)
    requires forall i | 0 <= i < |value| :: IsUnreserved(value[i])
    ensures var h := HeaderString(NewState(name, value).(secure := Some(on)), now, gmdate);
      && (on ==> h == name + "=" + value + "; secure")
      && (!on ==> h == name + "=" + value)
  {
    var st := NewState(name, value).(secure := Some(on));
    NameValueUnreserved(st);
    if on {
      RenderedWithOne(st, now, gmdate, 4, "secure");
    } else {
      RenderedBare(st, now, gmdate);
    }
  }

  /** Setting `secure` to true adds the flag; setting it back to false removes it entirely. */
  method SetSecureScenario(name: string, value: seq<ByteChar>, now: int, gmdate: int -> string)
    returns (on: string, off: string)
    requires forall i | 0 <= i < |value| :: IsUnreserved(value[i])
    ensures on == name + "=" + value + "; secure"
    ensures off == name + "=" + value
  {
    var c := new HttpCookie(name, value);
    c.SetSecure(true);
    on := c.GetHeaderString(now, gmdate);
    SecureOnlyRendered(name, value, true, now, gmdate);
    c.SetSecure(false);
    off := c.GetHeaderString(now, gmdate);
    SecureOnlyRendered(name, value, false, now, gmdate);
    assert c.State() == NewState(name, value).(secure := Some(false));
  }

  /** A new cookie with an unreserved value and `HttpOnly` set: `; HttpOnly` follows the pair exactly when it is true. */
  lemma HttpOnlyOnlyRendered(name: string, value: seq<ByteChar>, on: bool, now: int, gmdate: int -> string)
    requires forall i | 0 <= i < |value| :: IsUnreserved(value[i])
    ensures var h := HeaderString(NewState(name, value).(httpOnly := Some(on)), now, gmdate);
      && (on ==> h == name + "=" + value + "; HttpOnly")
      && (!on ==> h == name + "=" + value)
  {
    var st := NewState(name, value).(httpOnly := Some(on));
    NameValueUnreserved(st);
    if on {
      RenderedWithOne(st, now, gmdate, 5, "HttpOnly");
    } else {
      RenderedBare(st, now, gmdate);
    }
  }

  /** Setting `HttpOnly` to true adds the flag; setting it back to false removes it entirely. */
  method SetHttpOnlyScenario(name: string, value: seq<ByteChar>, now: int, gmdate: int -> string)
    returns (on: string, off: string)
    requires forall i | 0 <= i < |value| :: IsUnreserved(value[i])
    ensures on == name + "=" + value + "; HttpOnly"
    ensures off == name + "=" + value
  {
    var c := new HttpCookie(name, value);
    c.SetHttpOnly(true);
    on := c.GetHeaderString(now, gmdate);
    HttpOnlyOnlyRendered(name, value, true, now, gmdate);
    c.SetHttpOnly(false);
    off := c.GetHeaderString(now, gmdate);
    HttpOnlyOnlyRendered(name, value, false, now, gmdate);
    assert c.State() == NewState(name, value).(httpOnly := Some(false));
  }
}
