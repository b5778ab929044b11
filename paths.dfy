/**
 * Storage paths as the loaders build them: a relative path is its components
 * joined with '/', and an absolute path is a location followed by '/' and a
 * relative path.
 */
module Paths {
  import opened Wrappers
  import opened Strings

  /** A component names one entry of a directory, so it holds no separator. */
  predicate IsComponent(c: string) {
    '/' !in c
  }

  predicate AllComponents(parts: seq<string>) {
    forall i :: 0 <= i < |parts| ==> IsComponent(parts[i])
  }

  /** The components joined with '/'. */
  function Join(parts: seq<string>): string
    decreases |parts|
  {
    if |parts| == 0 then ""
    else if |parts| == 1 then parts[0]
    else parts[0] + "/" + Join(parts[1..])
  }

  /** The position of the first `c` at or after `from`, if any. */
  function IndexOf(s: string, c: char, from: nat): (r: Option<nat>)
    requires from <= |s|
    ensures r.Some? ==> from <= r.value < |s| && s[r.value] == c
    ensures r.Some? ==> forall k :: from <= k < r.value ==> s[k] != c
    ensures r.None? ==> forall k :: from <= k < |s| ==> s[k] != c
    decreases |s| - from
  {
    if from == |s| then None
    else if s[from] == c then Some(from)
    else IndexOf(s, c, from + 1)
  }

  /** `s` cut at every '/'. */
  function Split(s: string): (r: seq<string>)
    ensures |r| >= 1
    decreases |s|
  {
    match IndexOf(s, '/', 0)
    case None => [s]
    case Some(i) => [s[..i]] + Split(s[i + 1..])
  }

  /** Splitting a joined path gives back its components. */
  lemma {:induction false} SplitJoin(parts: seq<string>)
    requires |parts| >= 1 && AllComponents(parts)
    ensures Split(Join(parts)) == parts
    decreases |parts|
  {
    var s := Join(parts);
    if |parts| == 1 {
      NoSlash(parts[0]);
      assert parts == [parts[0]];
    } else {
      SplitCons(parts[0], Join(parts[1..]));
      SplitJoin(parts[1..]);
      assert parts == [parts[0]] + parts[1..];
    }
  }

  /** Splitting after a leading component peels that component off. */
  lemma SplitCons(c: string, rest: string)
    requires IsComponent(c)
    ensures Split(c + "/" + rest) == [c] + Split(rest)
  {
    var s := c + "/" + rest;
    assert s == c + ("/" + rest);
    NoSlashBefore(c, "/" + rest);
    assert s[..|c|] == c;
    assert s[|c| + 1..] == rest;
  }

  lemma NoSlash(c: string)
    requires IsComponent(c)
    ensures IndexOf(c, '/', 0) == None
  {
  }

  lemma NoSlashBefore(c: string, t: string)
    requires IsComponent(c) && |t| > 0 && t[0] == '/'
    ensures IndexOf(c + t, '/', 0) == Some(|c|)
  {
    var s := c + t;
    assert s[|c|] == '/';
    assert forall k :: 0 <= k < |c| ==> s[k] == c[k];
  }

  /** Joining is injective on component sequences. */
  lemma JoinInjective(a: seq<string>, b: seq<string>)
    requires |a| >= 1 && |b| >= 1 && AllComponents(a) && AllComponents(b)
    requires Join(a) == Join(b)
    ensures a == b
  {
    SplitJoin(a);
    SplitJoin(b);
  }

  // ---------------------------------------------------------------------------
  // Locations
  // ---------------------------------------------------------------------------

  /** `location` without its trailing separators. */
  function TrimSlashes(location: string): (r: string)
    ensures |r| <= |location| && r == location[..|r|]
    ensures |r| > 0 ==> r[|r| - 1] != '/'
    ensures forall k :: |r| <= k < |location| ==> location[k] == '/'
    decreases |location|
  {
    if |location| > 0 && location[|location| - 1] == '/' then TrimSlashes(location[..|location| - 1])
    else location
  }

  /** The absolute path of `rel` under `location`. */
  function Resolve(location: string, rel: string): string {
    TrimSlashes(location) + "/" + rel
  }

  /** `path` lies under `location`. */
  predicate Under(location: string, path: string) {
    StartsWith(path, TrimSlashes(location) + "/")
  }

  /** The path of `path` relative to `location`; requires it to lie under it. */
  function Relativize(location: string, path: string): (r: string)
    requires Under(location, path)
    ensures Resolve(location, r) == path
  {
    var p := TrimSlashes(location) + "/";
    assert path == p + path[|p|..];
    path[|p|..]
  }

  /** Every resolved path lies under its location and relativizes back. */
  lemma RelativizeResolve(location: string, rel: string)
    ensures Under(location, Resolve(location, rel))
    ensures Relativize(location, Resolve(location, rel)) == rel
  {
    var p := TrimSlashes(location) + "/";
    assert Resolve(location, rel) == p + rel;
    assert (p + rel)[..|p|] == p;
    assert (p + rel)[|p|..] == rel;
  }
}
