/**
 * Whether a loader resolves block locations for the files of a location.
 *
 * Resolving block locations is the expensive part of a load, so it can be
 * switched off per storage authority (`scheme://authority`) or per scheme with
 * the properties
 *   impala.preload-block-locations-for-scheduling.authority.<authority>
 *   impala.preload-block-locations-for-scheduling.scheme.<scheme>
 * The authority property is consulted first, then the scheme property; with
 * neither set, block locations are loaded.
 */
module BlockConfig {
  import opened Wrappers
  import opened Strings
  import opened Paths

  /** A configuration: property names and their raw values. */
  type Configuration = map<string, string>

  const PreloadPrefix: string := "impala.preload-block-locations-for-scheduling"

  function AuthorityKey(authority: string): string {
    PreloadPrefix + ".authority." + authority
  }

  function SchemeKey(scheme: string): string {
    PreloadPrefix + ".scheme." + scheme
  }

  // ---------------------------------------------------------------------------
  // Boolean properties
  // ---------------------------------------------------------------------------

  /** Java's `String.trim`: characters up to U+0020 are removed at both ends. */
  function Trim(s: string): (r: string)
    ensures |r| <= |s|
    ensures |r| > 0 ==> r[0] > ' ' && r[|r| - 1] > ' '
    decreases |s|
  {
    if |s| > 0 && s[0] <= ' ' then Trim(s[1..])
    else if |s| > 0 && s[|s| - 1] <= ' ' then Trim(s[..|s| - 1])
    else s
  }

  /**
   * A boolean property: "true" or "false" in any letter case and with
   * surrounding blanks; an absent or unreadable value gives `default`.
   */
  function GetBoolean(conf: Configuration, key: string, default: bool): bool {
    if key !in conf then default
    else if Lower(Trim(conf[key])) == "true" then true
    else if Lower(Trim(conf[key])) == "false" then false
    else default
  }

  /** The value's reading as a boolean, if it has one. */
  function ParseBoolean(value: string): Option<bool> {
    if Lower(Trim(value)) == "true" then Some(true)
    else if Lower(Trim(value)) == "false" then Some(false)
    else None
  }

  /** A readable value decides the property; anything else leaves the default. */
  lemma GetBooleanReads(conf: Configuration, key: string, default: bool)
    ensures key in conf && ParseBoolean(conf[key]).Some? ==> GetBoolean(conf, key, default) == ParseBoolean(conf[key]).value
    ensures key !in conf || ParseBoolean(conf[key]).None? ==> GetBoolean(conf, key, default) == default
  {
  }

  /** Java's "false" and "true" read back as themselves. */
  lemma ParseBooleanLiterals(b: bool)
    ensures ParseBoolean(if b then "true" else "false") == Some(b)
  {
    var v := if b then "true" else "false";
    assert Trim(v) == v;
    assert Lower(v) == v;
  }

  // ---------------------------------------------------------------------------
  // Locations
  // ---------------------------------------------------------------------------

  /** The parts of a location URI `scheme://authority/path`. */
  datatype Uri = Uri(scheme: string, authority: string, path: string)

  function RenderUri(u: Uri): string {
    u.scheme + "://" + u.authority + u.path
  }

  /** A scheme without ':' or '/', an authority without '/', a path that is empty or starts with '/'. */
  predicate WellFormedUri(u: Uri) {
    |u.scheme| > 0 && ':' !in u.scheme && '/' !in u.scheme && '/' !in u.authority
    && (u.path == [] || u.path[0] == '/')
  }

  /** A location's scheme and what follows its "://"; None when it carries no scheme. */
  function SplitScheme(s: string): Option<(string, string)> {
    match IndexOf(s, ':', 0)
    case None => None
    case Some(i) =>
      if i == 0 || '/' in s[..i] || !StartsWith(s[i + 1..], "//") then None
      else Some((s[..i], s[i + 3..]))
  }

  /** The authority, up to the first '/', and the path from there on. */
  function SplitAuthority(t: string): (string, string) {
    match IndexOf(t, '/', 0)
    case None => (t, "")
    case Some(j) => (t[..j], t[j..])
  }

  /** The scheme, authority and path of a location; None when it carries no scheme. */
  function ParseUri(s: string): Option<Uri> {
    match SplitScheme(s)
    case None => None
    case Some((scheme, rest)) => Some(Uri(scheme, SplitAuthority(rest).0, SplitAuthority(rest).1))
  }

  lemma SplitSchemeSound(s: string)
    ensures SplitScheme(s).Some? ==> s == SplitScheme(s).value.0 + "://" + SplitScheme(s).value.1
    ensures SplitScheme(s).Some? ==> var scheme := SplitScheme(s).value.0;
      |scheme| > 0 && ':' !in scheme && '/' !in scheme
  {
    if SplitScheme(s).Some? {
      var i := IndexOf(s, ':', 0).value;
      assert s[i + 1..][..2] == "//";
      assert s == s[..i] + "://" + s[i + 3..];
      assert forall k :: 0 <= k < i ==> s[..i][k] == s[k];
    }
  }

  lemma SplitAuthoritySound(t: string)
    ensures SplitAuthority(t).0 + SplitAuthority(t).1 == t
    ensures '/' !in SplitAuthority(t).0
    ensures SplitAuthority(t).1 == [] || SplitAuthority(t).1[0] == '/'
  {
    if IndexOf(t, '/', 0).Some? {
      var j := IndexOf(t, '/', 0).value;
      assert forall k :: 0 <= k < j ==> t[..j][k] == t[k];
      assert t == t[..j] + t[j..];
    }
  }

  /** Every location that parses is the rendering of well-formed parts. */
  lemma ParseUriSound(s: string)
    ensures ParseUri(s).Some? ==> WellFormedUri(ParseUri(s).value) && RenderUri(ParseUri(s).value) == s
  {
    SplitSchemeSound(s);
    if SplitScheme(s).Some? {
      SplitAuthoritySound(SplitScheme(s).value.1);
    }
  }

  lemma SplitSchemeRender(scheme: string, rest: string)
    requires |scheme| > 0 && ':' !in scheme && '/' !in scheme
    ensures SplitScheme(scheme + "://" + rest) == Some((scheme, rest))
  {
    var s := scheme + "://" + rest;
    var n := |scheme|;
    assert forall k :: 0 <= k < n ==> s[k] == scheme[k];
    assert s[n] == ':';
    assert s[..n] == scheme;
    assert s[n + 1..][..2] == "//";
    assert s[n + 3..] == rest;
  }

  lemma SplitAuthorityRender(authority: string, path: string)
    requires '/' !in authority && (path == [] || path[0] == '/')
    ensures SplitAuthority(authority + path) == (authority, path)
  {
    var t := authority + path;
    var m := |authority|;
    assert forall k :: 0 <= k < m ==> t[k] == authority[k];
    if path == [] {
      assert t == authority;
    } else {
      assert t[m] == '/';
      assert t[..m] == authority;
      assert t[m..] == path;
    }
  }

  /** Parsing a well-formed location gives back its parts. */
  lemma ParseRenderUri(u: Uri)
    requires WellFormedUri(u)
    ensures ParseUri(RenderUri(u)) == Some(u)
  {
    assert RenderUri(u) == u.scheme + "://" + (u.authority + u.path);
    SplitSchemeRender(u.scheme, u.authority + u.path);
    SplitAuthorityRender(u.authority, u.path);
  }

  // ---------------------------------------------------------------------------
  // The preload decision
  // ---------------------------------------------------------------------------

  /** Whether block locations are resolved for files under `location`. */
  function PreloadBlockLocations(conf: Configuration, location: string): bool {
    match ParseUri(location)
    case None => true
    case Some(u) => GetBoolean(conf, AuthorityKey(u.authority), GetBoolean(conf, SchemeKey(u.scheme), true))
  }

  /** A readable authority property decides, whatever the scheme property says. */
  lemma AuthorityDecides(conf: Configuration, u: Uri)
    requires WellFormedUri(u)
    requires AuthorityKey(u.authority) in conf && ParseBoolean(conf[AuthorityKey(u.authority)]).Some?
    ensures PreloadBlockLocations(conf, RenderUri(u)) == ParseBoolean(conf[AuthorityKey(u.authority)]).value
  {
    ParseRenderUri(u);
  }

  /** Without a readable authority property a readable scheme property decides. */
  lemma SchemeDecides(conf: Configuration, u: Uri)
    requires WellFormedUri(u)
    requires AuthorityKey(u.authority) !in conf || ParseBoolean(conf[AuthorityKey(u.authority)]).None?
    requires SchemeKey(u.scheme) in conf && ParseBoolean(conf[SchemeKey(u.scheme)]).Some?
    ensures PreloadBlockLocations(conf, RenderUri(u)) == ParseBoolean(conf[SchemeKey(u.scheme)]).value
  {
    ParseRenderUri(u);
  }

  /** With neither property readable, block locations are loaded. */
  lemma PreloadByDefault(conf: Configuration, u: Uri)
    requires WellFormedUri(u)
    requires AuthorityKey(u.authority) !in conf || ParseBoolean(conf[AuthorityKey(u.authority)]).None?
    requires SchemeKey(u.scheme) !in conf || ParseBoolean(conf[SchemeKey(u.scheme)]).None?
    ensures PreloadBlockLocations(conf, RenderUri(u))
  {
    ParseRenderUri(u);
  }

  /** Setting the authority property to "false" switches preloading off for that authority. */
  lemma AuthorityFalseDisables(scheme: string, authority: string, path: string)
    requires WellFormedUri(Uri(scheme, authority, path))
    ensures !PreloadBlockLocations(map[AuthorityKey(authority) := "false"], RenderUri(Uri(scheme, authority, path)))
  {
    ParseBooleanLiterals(false);
    AuthorityDecides(map[AuthorityKey(authority) := "false"], Uri(scheme, authority, path));
  }

  /** Setting the scheme property to "false" switches preloading off for every authority of it. */
  lemma SchemeFalseDisables(scheme: string, authority: string, path: string)
    requires WellFormedUri(Uri(scheme, authority, path))
    ensures !PreloadBlockLocations(map[SchemeKey(scheme) := "false"], RenderUri(Uri(scheme, authority, path)))
  {
    var conf := map[SchemeKey(scheme) := "false"];
    ParseBooleanLiterals(false);
    KeysDiffer(scheme, authority);
    SchemeDecides(conf, Uri(scheme, authority, path));
  }

  /** An authority property is never a scheme property. */
  lemma KeysDiffer(scheme: string, authority: string)
    ensures AuthorityKey(authority) != SchemeKey(scheme)
  {
    var n := |PreloadPrefix|;
    assert AuthorityKey(authority)[n + 1] == 'a';
    assert SchemeKey(scheme)[n + 1] == 's';
  }
}
