/**
 * `CookieBuilder`: a factory that stamps its configurable defaults (path,
 * secure, httpOnly and, once configured, domain) onto every cookie it builds.
 */
module CookieBuilders {
  import opened Wrappers
  import opened Strings
  import opened RawUrl
  import opened Cookies

  /** The builder's defaults; `domain` stays `null` until `setDefaultDomain` is called. */
  datatype Defaults = Defaults(domain: Option<string>, path: string, secure: bool, httpOnly: bool)

  /** The defaults of a fresh builder. */
  function InitialDefaults(): Defaults {
    Defaults(None, "/", true, true)
  }

  /**
   * The cookie `build(name, value)` returns: path, secure and httpOnly always set from the
   * defaults, the domain set only when a default domain is configured, no max-age.
   */
  function Stamped(d: Defaults, name: string, value: seq<ByteChar>): (st: CookieState)
    ensures st.name == name && st.value == value && st.maxAge.None?
    ensures st.path == Some(d.path) && st.secure == Some(d.secure) && st.httpOnly == Some(d.httpOnly)
    ensures st.domain == d.domain
  {
    NewState(name, value).(path := Some(d.path), secure := Some(d.secure), httpOnly := Some(d.httpOnly), domain := d.domain)
  }

  /** A built cookie renders a domain only when a non-empty default domain other than '0' was configured. */
  lemma BuiltDomainRendered(d: Defaults, name: string, value: seq<ByteChar>, now: int, gmdate: int -> string, x: string)
    ensures ("domain=" + x) in Attributes(Stamped(d, name, value), now, gmdate) <==>
      d.domain == Some(x) && x != "" && x != "0"
  {
    DomainRendered(Stamped(d, name, value), now, gmdate, x);
  }

  /** A built cookie renders `path=<p>` exactly when `p` is the default path and is neither `''` nor `'0'`. */
  lemma BuiltPathRendered(d: Defaults, name: string, value: seq<ByteChar>, now: int, gmdate: int -> string, p: string)
    ensures ("path=" + p) in Attributes(Stamped(d, name, value), now, gmdate) <==>
      d.path == p && p != "" && p != "0"
  {
    PathRendered(Stamped(d, name, value), now, gmdate, p);
  }

  /** A built cookie renders `secure` and `HttpOnly` exactly when the defaults say true. */
  lemma BuiltFlagsRendered(d: Defaults, name: string, value: seq<ByteChar>, now: int, gmdate: int -> string)
    ensures "secure" in Attributes(Stamped(d, name, value), now, gmdate) <==> d.secure
    ensures "HttpOnly" in Attributes(Stamped(d, name, value), now, gmdate) <==> d.httpOnly
  {
    SecureRendered(Stamped(d, name, value), now, gmdate);
    HttpOnlyRendered(Stamped(d, name, value), now, gmdate);
  }

  /**
   * A fresh builder's cookie renders as `name=value; path=/; secure; HttpOnly` (for a value
   * that needs no escaping).
   */
  lemma FreshBuilderRendering(name: string, value: seq<ByteChar>, now: int, gmdate: int -> string)
    requires forall i | 0 <= i < |value| :: IsUnreserved(value[i])
    ensures HeaderString(Stamped(InitialDefaults(), name, value), now, gmdate) ==
      Implode("; ", [name + "=" + value, "path=/", "secure", "HttpOnly"])
  {
    var st := Stamped(InitialDefaults(), name, value);
    var attrs := AttributeParts(st, now, gmdate);
    HeaderStringSegments(st, now, gmdate);
    NameValueUnreserved(st);
    assert PathPart(st) == Some("path=/") by {
      assert "/" != "" && "/" != "0";
      assert "path=" + "/" == "path=/";
    }
    assert attrs == [None, None, None] + [Some("path=/"), Some("secure"), Some("HttpOnly")];
    PresentConcat([None, None, None], [Some("path=/"), Some("secure"), Some("HttpOnly")]);
    PresentNone([None, None, None]);
    assert Present([Some("path=/"), Some("secure"), Some("HttpOnly")]) == ["path=/", "secure", "HttpOnly"];
    assert Attributes(st, now, gmdate) == ["path=/", "secure", "HttpOnly"];
    assert [NameValuePart(st)] + ["path=/", "secure", "HttpOnly"] == [name + "=" + value, "path=/", "secure", "HttpOnly"];
  }

  class CookieBuilder {
    var defaultDomain: Option<string>
    var defaultPath: string
    var defaultSecure: bool
    var defaultHttpOnly: bool

    function Current(): Defaults
      reads this
    {
      Defaults(defaultDomain, defaultPath, defaultSecure, defaultHttpOnly)
    }

    constructor ()
      ensures Current() == InitialDefaults()
    {
      defaultDomain, defaultPath, defaultSecure, defaultHttpOnly := None, "/", true, true;
    }

    method SetDefaultDomain(domain: string)
      modifies this`defaultDomain
      ensures Current() == old(Current()).(domain := Some(domain))
    {
      defaultDomain := Some(domain);
    }

    method SetDefaultPath(path: string)
      modifies this`defaultPath
      ensures Current() == old(Current()).(path := path)
    {
      defaultPath := path;
    }

    method SetDefaultSecure(secure: bool)
      modifies this`defaultSecure
      ensures Current() == old(Current()).(secure := secure)
    {
      defaultSecure := secure;
    }

    method SetDefaultHttpOnly(httpOnly: bool)
      modifies this`defaultHttpOnly
      ensures Current() == old(Current()).(httpOnly := httpOnly)
    {
      defaultHttpOnly := httpOnly;
    }

    /** A new cookie each time, stamped with the current defaults; the builder itself is unchanged. */
    method Build(name: string, value: seq<ByteChar>) returns (c: HttpCookie)
      ensures fresh(c)
      ensures c.State() == Stamped(Current(), name, value)
    {
      c := new HttpCookie(name, value);
      c.SetPath(defaultPath);
      c.SetSecure(defaultSecure);
      c.SetHttpOnly(defaultHttpOnly);
      if defaultDomain.Some? {
        c.SetDomain(defaultDomain.value);
      }
    }
  }

  /**
   * Cookies already built keep the defaults they were built with when the builder is
   * reconfigured afterwards, and later cookies take the new defaults.
   */
  method ReconfigureAfterBuild(name: string, value: seq<ByteChar>, path: string, domain: string)
    returns (before: CookieState, after: CookieState)
    ensures before == Stamped(InitialDefaults(), name, value)
    ensures after == Stamped(Defaults(Some(domain), path, false, true), name, value)
  {
    var b := new CookieBuilder();
    var first := b.Build(name, value);
    b.SetDefaultPath(path);
    b.SetDefaultSecure(false);
    b.SetDefaultDomain(domain);
    var second := b.Build(name, value);
    before, after := first.State(), second.State();
  }
}
