/**
 * CommonUtil.normalizeUrl: the canonical form under which monitored URLs are
 * stored and compared. java.net.URI is not modelled: parsing is a function
 * handed in by the caller, and printing is the component concatenation the
 * seven-argument URI constructor performs (without its percent-quoting).
 */
module UrlNormalizer {
  import opened Wrappers
  import opened JavaText

  /** URI.getPort's value for a URI without a port. */
  const NO_PORT := -1

  /** The components java.net.URI exposes through its getters; an absent component is None. */
  datatype Uri = Uri(
    scheme: Option<string>,
    userInfo: Option<string>,
    host: Option<string>,
    port: int,
    path: Option<string>,
    query: Option<string>,
    fragment: Option<string>)

  /** What normalizeUrl gives back: null, a canonical URL, or IllegalArgumentException. */
  datatype Normalized = NullUrl | Url(text: string) | Invalid

  predicate HasHttpPrefix(t: string) {
    StartsWith(t, "http://") || StartsWith(t, "https://")
  }

  /**
   * The text handed to the parser: the trimmed input, with "https://" put in
   * front unless it already begins with "http://" or "https://". The test is
   * case-sensitive, so "HTTP://x" becomes "https://HTTP://x".
   */
  function WithScheme(raw: string): (t: string)
    ensures HasHttpPrefix(t)
    ensures EndsWith(t, Trim(raw)) && |t| <= |Trim(raw)| + |"https://"|
  {
    var trimmed := Trim(raw);
    ConcatEnds("https://", trimmed);
    ConcatEnds([], trimmed);
    if !StartsWith(trimmed, "http://") && !StartsWith(trimmed, "https://") then
      "https://" + trimmed
    else
      trimmed
  }

  /** Preparing an already prepared text changes nothing. */
  lemma WithSchemeIdempotent(raw: string)
    ensures WithScheme(WithScheme(raw)) == WithScheme(raw)
  {
    var t := WithScheme(raw);
    assert t[0] == 'h';
    if t != Trim(raw) {
      assert t == "https://" + Trim(raw);
      assert Trim(raw) == [] ==> t[|t| - 1] == '/';
      assert Trim(raw) != [] ==> t[|t| - 1] == Trim(raw)[|Trim(raw)| - 1];
    }
    TrimFixed(t);
  }

  /** Text already beginning with "http://" or "https://", with nothing to trim, is handed over as it is. */
  lemma WithSchemeKeeps(t: string)
    requires HasHttpPrefix(t) && Trim(t) == t
    ensures WithScheme(t) == t
  {
  }

  /** Text with nothing to trim that does not begin with "http://" or "https://" gets "https://" put in front. */
  lemma WithSchemePrefixes(raw: string)
    requires raw != [] && !IsTrimmed(raw[0]) && !IsTrimmed(raw[|raw| - 1])
    requires !HasHttpPrefix(raw)
    ensures WithScheme(raw) == "https://" + raw
  {
    TrimFixed(raw);
  }

  /**
   * "HTTP://Example.com:80/a/" is not recognised as carrying a scheme, because
   * the prefix test does not ignore case: it is parsed as "https://HTTP://...".
   */
  lemma UpperCaseSchemeGetsPrefixed(raw: string)
    requires raw == "HTTP://Example.com:80/a/"
    ensures WithScheme(raw) == "https://" + raw
  {
    assert raw[0] == 'H' && raw[|raw| - 1] == '/';
    assert !HasHttpPrefix(raw);
    WithSchemePrefixes(raw);
  }

  predicate IsHttp(scheme: Option<string>) {
    scheme.Some? && EqualsIgnoreCase(scheme.value, "http")
  }

  predicate IsHttps(scheme: Option<string>) {
    scheme.Some? && EqualsIgnoreCase(scheme.value, "https")
  }

  /** The port equals its scheme's default: 80 for http, 443 for https. */
  predicate IsDefaultPort(u: Uri): (b: bool)
    ensures b ==> u.scheme.Some? && (u.port == 80 || u.port == 443)
    ensures u.port == NO_PORT ==> !b
  {
    (u.port == 80 && IsHttp(u.scheme)) || (u.port == 443 && IsHttps(u.scheme))
  }

  /** A path longer than two characters that ends in "//": it keeps a trailing slash after one pass. */
  predicate DoubleSlashTail(p: Option<string>) {
    p.Some? && |p.value| > 2 && p.value[|p.value| - 1] == '/' && p.value[|p.value| - 2] == '/'
  }

  /**
   * The path of the canonical URL: "/" for a missing or blank path, otherwise
   * the path with one trailing slash removed when it is longer than "/".
   */
  function CanonicalPath(p: Option<string>): (r: string)
    ensures r != []
    ensures p.None? || IsBlank(p.value) ==> r == "/"
    ensures p.Some? && !IsBlank(p.value) ==> r == p.value || r + "/" == p.value
    ensures p.Some? && !IsBlank(p.value) && |r| > 1 ==> r[|r| - 1] != '/' || DoubleSlashTail(p)
  {
    var path := if p.None? || IsBlank(p.value) then "/" else p.value;
    EndsWithChar(path, '/');
    if |path| > 1 && EndsWith(path, "/") then
      var r := path[..|path| - 1];
      assert r + "/" == path;
      r
    else
      path
  }

  /**
   * The rewrite normalizeUrl applies to the parsed components. None is the
   * IllegalArgumentException thrown for a scheme other than http or https
   * (ignoring case), and for a path the URI constructor refuses because it
   * does not begin with '/'.
   */
  function Canonicalize(u: Uri): (r: Option<Uri>)
    ensures r.Some? <==> (IsHttp(u.scheme) || IsHttps(u.scheme)) && CanonicalPath(u.path)[0] == '/'
    ensures r.Some? ==> r.value.scheme == u.scheme && r.value.userInfo == u.userInfo
                        && r.value.query == u.query && r.value.fragment.None?
    ensures r.Some? ==> r.value.host.Some? == u.host.Some?
                        && (u.host.Some? ==>
                              IsLower(r.value.host.value) && EqualsIgnoreCase(r.value.host.value, u.host.value))
    ensures r.Some? ==> (r.value.port == NO_PORT <==> u.port == NO_PORT || IsDefaultPort(u))
                        && (r.value.port != NO_PORT ==> r.value.port == u.port)
    ensures r.Some? ==> r.value.path == Some(CanonicalPath(u.path))
  {
    if !IsHttp(u.scheme) && !IsHttps(u.scheme) then None
    else
      var host := if u.host.Some? then Some(ToLower(u.host.value)) else None;
      var dropPort := IsDefaultPort(u);
      var path := CanonicalPath(u.path);
      if path[0] != '/' then None
      else
        ToLowerIsLower(if u.host.Some? then u.host.value else "");
        Some(Uri(u.scheme, u.userInfo, host, if dropPort then NO_PORT else u.port, Some(path), u.query, None))
  }

  /**
   * Canonicalizing a canonical URL changes nothing exactly when the original
   * path did not end in "//": only one trailing slash is removed per pass.
   */
  lemma {:induction false} CanonicalizeIdempotentIff(u: Uri)
    requires Canonicalize(u).Some?
    ensures Canonicalize(Canonicalize(u).value) == Canonicalize(u) <==> !DoubleSlashTail(u.path)
  {
    var c := Canonicalize(u).value;
    CanonicalPathTwice(u.path);
    if DoubleSlashTail(u.path) {
      assert CanonicalPath(c.path) != c.path.value;
    } else {
      CanonicalizeFixes(u, c);
    }
  }

  /** A second pass over a canonical path changes it exactly when the original ended in "//". */
  lemma CanonicalPathTwice(p: Option<string>)
    requires CanonicalPath(p)[0] == '/'
    ensures CanonicalPath(Some(CanonicalPath(p))) == CanonicalPath(p) <==> !DoubleSlashTail(p)
  {
    var q := CanonicalPath(p);
    SlashPathOnce(q);
    if DoubleSlashTail(p) {
      var s := p.value;
      assert !IsBlank(s) by { assert !IsWhitespace(s[|s| - 1]); }
      EndsWithChar(s, '/');
      assert q == s[..|s| - 1];
    }
  }

  /** A path beginning with '/' loses its trailing slash, if it has one and is longer than "/". */
  lemma SlashPathOnce(q: string)
    requires q != [] && q[0] == '/'
    ensures CanonicalPath(Some(q)) == q <==> !(|q| > 1 && q[|q| - 1] == '/')
  {
    assert !IsBlank(q) by { assert !IsWhitespace(q[0]); }
    EndsWithChar(q, '/');
  }

  /** The second pass keeps every component of a first pass whose path it leaves alone. */
  lemma CanonicalizeFixes(u: Uri, c: Uri)
    requires Canonicalize(u) == Some(c)
    requires CanonicalPath(c.path) == c.path.value
    ensures Canonicalize(c) == Some(c)
  {
    if u.host.Some? {
      ToLowerIsLower(u.host.value);
      assert ToLower(c.host.value) == c.host.value;
    }
    assert IsHttp(c.scheme) == IsHttp(u.scheme) && IsHttps(c.scheme) == IsHttps(u.scheme);
    assert !IsDefaultPort(c);
  }

  /**
   * Whether URI.toString prints an authority ("//" and what follows): a URI
   * built from components prints user info and port only with a host.
   */
  predicate HasAuthority(u: Uri) {
    u.host.Some?
  }

  /** The authority as printed after "//": user info, host and port. */
  function Authority(u: Uri): string {
    (if u.userInfo.Some? then u.userInfo.value + "@" else "")
    + (if u.host.Some? then u.host.value else "")
    + (if u.port != NO_PORT then ":" + IntToDecimal(u.port) else "")
  }

  /** What follows the authority: path, query and fragment. */
  function PathAndAfter(u: Uri): string {
    (if u.path.Some? then u.path.value else "")
    + (if u.query.Some? then "?" + u.query.value else "")
    + (if u.fragment.Some? then "#" + u.fragment.value else "")
  }

  /** The canonical URL as URI.toString prints it (percent-quoting is not modelled). */
  function Render(u: Uri): (r: string)
    ensures u.scheme.Some? ==> StartsWith(r, u.scheme.value + ":")
    ensures EndsWith(r, PathAndAfter(u))
  {
    var scheme := if u.scheme.Some? then u.scheme.value + ":" else "";
    var authority := if HasAuthority(u) then "//" + Authority(u) else "";
    assert (scheme + authority + PathAndAfter(u))[..|scheme|] == scheme;
    assert (scheme + authority + PathAndAfter(u))[|scheme + authority|..] == PathAndAfter(u);
    scheme + authority + PathAndAfter(u)
  }

  lemma ToLowerAppend(a: string, b: string)
    ensures ToLower(a + b) == ToLower(a) + ToLower(b)
  {
    assert forall i :: 0 <= i < |a + b| ==> ToLower(a + b)[i] == (ToLower(a) + ToLower(b))[i];
  }

  /** The printed text of a URL whose scheme is http or https begins with "http:" or "https:", ignoring case. */
  lemma RenderBeginsWithScheme(u: Uri)
    requires IsHttp(u.scheme) || IsHttps(u.scheme)
    ensures StartsWith(ToLower(Render(u)), "http:") || StartsWith(ToLower(Render(u)), "https:")
  {
    var s := u.scheme.value;
    var rest := (if HasAuthority(u) then "//" + Authority(u) else "") + PathAndAfter(u);
    assert Render(u) == (s + ":") + rest;
    ToLowerAppend(s + ":", rest);
    ToLowerAppend(s, ":");
    assert ToLower(":") == ":";
    var head := ToLower(s) + ":";
    ConcatEnds(head, ToLower(rest));
    assert head == "http:" || head == "https:";
  }

  /**
   * CommonUtil.normalizeUrl with the parser supplied: null stays null, text the
   * parser refuses or a non-http(s) scheme is Invalid, anything else is the
   * printed canonical URL.
   */
  function NormalizeUrl(raw: Option<string>, parse: string -> Option<Uri>): (r: Normalized)
    ensures r.NullUrl? <==> raw.None?
    ensures raw.Some? && parse(WithScheme(raw.value)).None? ==> r.Invalid?
    ensures r.Url? ==> StartsWith(ToLower(r.text), "http:") || StartsWith(ToLower(r.text), "https:")
    ensures raw.Some? ==>
              (r.Url? <==> parse(WithScheme(raw.value)).Some? && Canonicalize(parse(WithScheme(raw.value)).value).Some?)
    ensures r.Url? ==> r.text == Render(Canonicalize(parse(WithScheme(raw.value)).value).value)
  {
    if raw.None? then NullUrl
    else
      match parse(WithScheme(raw.value))
      case None => Invalid
      case Some(u) =>
        match Canonicalize(u)
        case None => Invalid
        case Some(c) =>
          RenderBeginsWithScheme(c);
          Url(Render(c))
  }

  /** A URL printed with a lower-case http or https scheme and an authority begins with "http://" or "https://". */
  lemma RenderHasHttpPrefix(c: Uri)
    requires c.scheme == Some("http") || c.scheme == Some("https")
    requires c.host.Some?
    ensures HasHttpPrefix(Render(c))
  {
    var head := c.scheme.value + "://";
    assert Render(c) == head + (Authority(c) + PathAndAfter(c));
    ConcatEnds(head, Authority(c) + PathAndAfter(c));
    assert head == "http://" || head == "https://";
  }

  /**
   * Normalizing a normalized URL gives it back, provided the parser reads back
   * what the printer writes, the scheme is written in lower case, there is a
   * host, the printed text has no surrounding white space (java.net.URI quotes
   * spaces), and the original path did not end in "//".
   */
  lemma NormalizeUrlIdempotent(raw: string, parse: string -> Option<Uri>, u: Uri)
    requires parse(WithScheme(raw)) == Some(u)
    requires Canonicalize(u).Some?
    requires u.scheme == Some("http") || u.scheme == Some("https")
    requires u.host.Some?
    requires !DoubleSlashTail(u.path)
    requires parse(Render(Canonicalize(u).value)) == Canonicalize(u)
    requires Trim(Render(Canonicalize(u).value)) == Render(Canonicalize(u).value)
    ensures NormalizeUrl(Some(raw), parse).Url?
    ensures NormalizeUrl(Some(NormalizeUrl(Some(raw), parse).text), parse) == NormalizeUrl(Some(raw), parse)
  {
    var c := Canonicalize(u).value;
    CanonicalizeIdempotentIff(u);
    RenderHasHttpPrefix(c);
    WithSchemeKeeps(Render(c));
  }

  /** How a URL with scheme and host but no user info, port, query or fragment prints. */
  lemma RenderSchemeHostPath(c: Uri)
    requires c.scheme.Some? && c.userInfo.None? && c.host.Some? && c.port == NO_PORT
    requires c.path.Some? && c.query.None? && c.fragment.None?
    ensures Render(c) == c.scheme.value + "://" + c.host.value + c.path.value
  {
    assert Authority(c) == c.host.value && PathAndAfter(c) == c.path.value;
  }

  /** The literal facts about the scheme "https" the lemma below relies on. */
  lemma HttpsScheme()
    ensures IsHttps(Some("https")) && !IsHttp(Some("https"))
    ensures "https" + "://" == "https://"
  {
    LowerFixed("https");
  }

  /**
   * A bare host name such as "example.com" is stored as "https://example.com/"
   * when the parser splits "https://example.com" as java.net.URI does.
   */
  lemma BareHostGetsHttpsAndSlash(host: string, parse: string -> Option<Uri>)
    requires host != [] && !IsTrimmed(host[0]) && !IsTrimmed(host[|host| - 1])
    requires !HasHttpPrefix(host) && IsLower(host)
    requires parse("https://" + host) == Some(Uri(Some("https"), None, Some(host), NO_PORT, Some(""), None, None))
    ensures NormalizeUrl(Some(host), parse) == Url("https://" + host + "/")
  {
    WithSchemePrefixes(host);
    var u := Uri(Some("https"), None, Some(host), NO_PORT, Some(""), None, None);
    var c := Uri(Some("https"), None, Some(host), NO_PORT, Some("/"), None, None);
    LowerFixed(host);
    HttpsScheme();
    assert CanonicalPath(u.path) == "/" by { assert IsBlank(""); }
    assert Canonicalize(u) == Some(c);
    RenderSchemeHostPath(c);
    assert Render(c) == "https://" + host + "/";
  }
}
