/**
 * The storage tree a loader lists, and the listing itself.
 *
 * A table root is a directory of entries; each entry is a file (with its
 * size, modification time and block locations as the storage client reports
 * them) or a directory. A missing root is `None`. Listing a root yields every
 * file whose name and whose enclosing directories' names are not hidden; a
 * non-recursive listing stops at the root's own files.
 */
module Storage {
  import opened Wrappers
  import opened Paths

  /** A network endpoint of a data node. */
  datatype Host = Host(hostname: string, port: int)

  /** One block of a file: its byte range and the hosts holding a replica. */
  datatype BlockLocation = BlockLocation(offset: nat, length: nat, hosts: seq<Host>)

  datatype Entry =
    | File(name: string, size: nat, mtime: int, blocks: seq<BlockLocation>)
    | Dir(name: string, children: seq<Entry>)

  /** A file found by a listing: the directories leading to it from the root, and its entry. */
  datatype RawFile = RawFile(dirs: seq<string>, name: string, size: nat, mtime: int, blocks: seq<BlockLocation>)

  /** The directory entry a listed file came from. */
  function FileEntry(r: RawFile): Entry {
    File(r.name, r.size, r.mtime, r.blocks)
  }

  /** The file's path relative to the table root. */
  function RelativePath(f: RawFile): string {
    Join(f.dirs + [f.name])
  }

  /** No two files of the sequence share a relative path. */
  predicate DistinctPaths(files: seq<RawFile>) {
    forall a, b :: 0 <= a < b < |files| ==> RelativePath(files[a]) != RelativePath(files[b])
  }

  /** Names of staging, temporary and metadata entries start with '.' or '_'. */
  predicate Hidden(name: string) {
    |name| > 0 && (name[0] == '.' || name[0] == '_')
  }

  // ---------------------------------------------------------------------------
  // Listing
  // ---------------------------------------------------------------------------

  /** The files under `entries`, which sit below the directories `prefix`. */
  function Walk(entries: seq<Entry>, prefix: seq<string>, recursive: bool): seq<RawFile>
    decreases entries
  {
    if entries == [] then []
    else WalkEntry(entries[0], prefix, recursive) + Walk(entries[1..], prefix, recursive)
  }

  /** The files `e` contributes: itself if it is a visible file, its contents if a visible directory. */
  function WalkEntry(e: Entry, prefix: seq<string>, recursive: bool): seq<RawFile>
    decreases e
  {
    match e
    case File(name, size, mtime, blocks) => if Hidden(name) then [] else [RawFile(prefix, name, size, mtime, blocks)]
    case Dir(name, children) =>
      if Hidden(name) || !recursive then [] else Walk(children, prefix + [name], recursive)
  }

  /** The listing of a table root; a root that does not exist has no files. */
  function ListFiles(root: Option<seq<Entry>>, recursive: bool): seq<RawFile> {
    match root
    case None => []
    case Some(entries) => Walk(entries, [], recursive)
  }

  // ---------------------------------------------------------------------------
  // What a listing contains
  // ---------------------------------------------------------------------------

  /** The file entry `f` is reached from `entries` through the directories `path`. */
  predicate FileAt(entries: seq<Entry>, path: seq<string>, f: Entry)
    decreases |path|, 1
  {
    exists i :: 0 <= i < |entries| && FileAtEntry(entries[i], path, f)
  }

  /** The file entry `f` is `e` itself (empty `path`) or lies inside directory `e`. */
  predicate FileAtEntry(e: Entry, path: seq<string>, f: Entry)
    decreases |path|, 0
  {
    if path == [] then e == f && e.File?
    else e.Dir? && e.name == path[0] && FileAt(e.children, path[1..], f)
  }

  /** A file with this name, under these directories, is listed. */
  predicate Listable(path: seq<string>, f: Entry, recursive: bool) {
    !Hidden(f.name) && (forall i :: 0 <= i < |path| ==> !Hidden(path[i])) && (recursive || path == [])
  }

  /** `r` is a file of the tree below `prefix` that a listing keeps. */
  predicate Found(entries: seq<Entry>, prefix: seq<string>, recursive: bool, r: RawFile) {
    |prefix| <= |r.dirs| && r.dirs[..|prefix|] == prefix
    && FileAt(entries, r.dirs[|prefix|..], FileEntry(r)) && Listable(r.dirs[|prefix|..], FileEntry(r), recursive)
  }

  /**
   * A listing holds exactly the files of the tree that are not hidden and lie
   * in no hidden directory; without recursion, exactly those of the root itself.
   */
  lemma ListFilesSpec(root: seq<Entry>, recursive: bool, r: RawFile)
    ensures r in ListFiles(Some(root), recursive) <==>
      FileAt(root, r.dirs, FileEntry(r)) && Listable(r.dirs, FileEntry(r), recursive)
  {
    WalkSpec(root, [], recursive, r);
    assert r.dirs[..0] == [] && r.dirs[0..] == r.dirs;
  }

  lemma {:induction false} WalkSpec(entries: seq<Entry>, prefix: seq<string>, recursive: bool, r: RawFile)
    ensures r in Walk(entries, prefix, recursive) <==> Found(entries, prefix, recursive, r)
    decreases entries
  {
    if entries != [] {
      WalkEntrySpec(entries[0], prefix, recursive, r);
      WalkSpec(entries[1..], prefix, recursive, r);
      if |prefix| <= |r.dirs| {
        FileAtCons(entries, r.dirs[|prefix|..], FileEntry(r));
      }
    }
  }

  /** A file lies under a non-empty sequence of entries when it lies under the first or the rest. */
  lemma FileAtCons(entries: seq<Entry>, path: seq<string>, f: Entry)
    requires entries != []
    ensures FileAt(entries, path, f) <==> FileAtEntry(entries[0], path, f) || FileAt(entries[1..], path, f)
  {
    if FileAt(entries, path, f) && !FileAtEntry(entries[0], path, f) {
      var i :| 0 <= i < |entries| && FileAtEntry(entries[i], path, f);
      assert entries[1..][i - 1] == entries[i];
    }
    if FileAt(entries[1..], path, f) {
      var i :| 0 <= i < |entries[1..]| && FileAtEntry(entries[1..][i], path, f);
      assert entries[i + 1] == entries[1..][i];
    }
  }

  lemma {:induction false} WalkEntrySpec(e: Entry, prefix: seq<string>, recursive: bool, r: RawFile)
    ensures r in WalkEntry(e, prefix, recursive) <==>
      |prefix| <= |r.dirs| && r.dirs[..|prefix|] == prefix
      && FileAtEntry(e, r.dirs[|prefix|..], FileEntry(r)) && Listable(r.dirs[|prefix|..], FileEntry(r), recursive)
    decreases e
  {
    match e
    case File(name, _, _, _) =>
      if |prefix| <= |r.dirs| && r.dirs[..|prefix|] == prefix && r.dirs[|prefix|..] == [] {
        assert r.dirs == prefix;
      }
    case Dir(name, children) =>
      if !Hidden(name) && recursive {
        var inner := prefix + [name];
        WalkSpec(children, inner, recursive, r);
        if |prefix| < |r.dirs| && r.dirs[..|prefix|] == prefix {
          var rest := r.dirs[|prefix|..];
          assert rest[1..] == r.dirs[|inner|..];
          assert r.dirs[..|inner|] == inner <==> rest[0] == name;
          ListableCons(rest, FileEntry(r), recursive);
        }
      } else if |prefix| <= |r.dirs| && r.dirs[..|prefix|] == prefix {
        var rest := r.dirs[|prefix|..];
        if rest != [] && Listable(rest, FileEntry(r), recursive) {
          assert !Hidden(rest[0]);
        }
      }
  }

  lemma ListableCons(path: seq<string>, f: Entry, recursive: bool)
    requires path != [] && recursive
    ensures Listable(path, f, recursive) <==> !Hidden(path[0]) && Listable(path[1..], f, recursive)
  {
    if !Hidden(path[0]) && Listable(path[1..], f, recursive) {
      forall i | 0 <= i < |path| ensures !Hidden(path[i]) {
        if i > 0 {
          assert path[i] == path[1..][i - 1];
        }
      }
    }
  }

  /** Listings of consecutive entries concatenate. */
  lemma {:induction false} WalkAppend(a: seq<Entry>, b: seq<Entry>, prefix: seq<string>, recursive: bool)
    ensures Walk(a + b, prefix, recursive) == Walk(a, prefix, recursive) + Walk(b, prefix, recursive)
    decreases |a|
  {
    if a != [] {
      assert (a + b)[1..] == a[1..] + b;
      WalkAppend(a[1..], b, prefix, recursive);
    } else {
      assert a + b == b;
    }
  }

  /** A hidden entry adds nothing to a listing, whatever it holds. */
  lemma HiddenEntryIgnored(entries: seq<Entry>, e: Entry, prefix: seq<string>, recursive: bool)
    requires Hidden(e.name)
    ensures Walk(entries + [e], prefix, recursive) == Walk(entries, prefix, recursive)
  {
    WalkAppend(entries, [e], prefix, recursive);
    assert Walk([e], prefix, recursive) == WalkEntry(e, prefix, recursive) + Walk([], prefix, recursive);
  }

  /** Every listed file lies in no hidden directory and is itself not hidden. */
  lemma ListedNotHidden(root: seq<Entry>, recursive: bool, r: RawFile)
    requires r in ListFiles(Some(root), recursive)
    ensures !Hidden(r.name) && forall i :: 0 <= i < |r.dirs| ==> !Hidden(r.dirs[i])
  {
    ListFilesSpec(root, recursive, r);
  }

  // ---------------------------------------------------------------------------
  // Distinct paths
  // ---------------------------------------------------------------------------

  /** An entry's name is a single path component, and a directory's contents are well formed. */
  predicate EntryWellFormed(e: Entry)
    decreases e, 1
  {
    IsComponent(e.name) && (e.Dir? ==> WellFormed(e.children))
  }

  /** The entries of one directory: well formed, and no two with the same name. */
  predicate WellFormed(entries: seq<Entry>)
    decreases entries, 0
  {
    (forall i :: 0 <= i < |entries| ==> EntryWellFormed(entries[i]))
    && (forall i, j :: 0 <= i < j < |entries| ==> entries[i].name != entries[j].name)
  }

  /** The components of a listed file's relative path. */
  function Components(r: RawFile): seq<string> {
    r.dirs + [r.name]
  }

  /** A file listed below `prefix` comes from one of the entries. */
  lemma {:induction false} WalkMember(entries: seq<Entry>, prefix: seq<string>, recursive: bool, r: RawFile)
    requires r in Walk(entries, prefix, recursive)
    ensures exists j :: 0 <= j < |entries| && r in WalkEntry(entries[j], prefix, recursive)
    decreases entries
  {
    if r !in WalkEntry(entries[0], prefix, recursive) {
      WalkMember(entries[1..], prefix, recursive, r);
      var j :| 0 <= j < |entries[1..]| && r in WalkEntry(entries[1..][j], prefix, recursive);
      assert entries[1..][j] == entries[j + 1];
    }
  }

  /**
   * A file an entry contributes has the prefix as its first components and the
   * entry's name right after them; they are all components when the prefix and
   * the entry are well formed.
   */
  lemma {:induction false} WalkEntryShape(e: Entry, prefix: seq<string>, recursive: bool, r: RawFile)
    requires r in WalkEntry(e, prefix, recursive)
    ensures |prefix| < |Components(r)| && Components(r)[..|prefix|] == prefix
      && Components(r)[|prefix|] == e.name
    ensures AllComponents(prefix) && EntryWellFormed(e) ==> AllComponents(Components(r))
    decreases e
  {
    if e.Dir? {
      var inner := prefix + [e.name];
      WalkMember(e.children, inner, recursive, r);
      var j :| 0 <= j < |e.children| && r in WalkEntry(e.children[j], inner, recursive);
      WalkEntryShape(e.children[j], inner, recursive, r);
      assert Components(r)[..|prefix|] == Components(r)[..|inner|][..|prefix|];
      assert Components(r)[|prefix|] == Components(r)[..|inner|][|prefix|];
      if AllComponents(prefix) && EntryWellFormed(e) {
        assert AllComponents(inner);
        assert WellFormed(e.children);
        assert EntryWellFormed(e.children[j]);
      }
    }
  }

  lemma {:induction false} WalkShape(entries: seq<Entry>, prefix: seq<string>, recursive: bool, r: RawFile)
    requires r in Walk(entries, prefix, recursive)
    ensures |prefix| < |Components(r)| && Components(r)[..|prefix|] == prefix
    ensures exists j :: 0 <= j < |entries| && Components(r)[|prefix|] == entries[j].name
    ensures AllComponents(prefix) && WellFormed(entries) ==> AllComponents(Components(r))
  {
    WalkMember(entries, prefix, recursive, r);
    var j :| 0 <= j < |entries| && r in WalkEntry(entries[j], prefix, recursive);
    WalkEntryShape(entries[j], prefix, recursive, r);
  }

  /** The tail of well-formed entries is well formed. */
  lemma WellFormedTail(entries: seq<Entry>)
    requires entries != [] && WellFormed(entries)
    ensures WellFormed(entries[1..]) && EntryWellFormed(entries[0])
    ensures forall j :: 0 <= j < |entries[1..]| ==> entries[1..][j].name != entries[0].name
  {
    assert forall j :: 0 <= j < |entries[1..]| ==> entries[1..][j] == entries[j + 1];
  }

  /** No two files listed from well-formed entries have the same components. */
  lemma {:induction false} WalkDistinct(entries: seq<Entry>, prefix: seq<string>, recursive: bool)
    requires WellFormed(entries)
    ensures forall a, b :: 0 <= a < b < |Walk(entries, prefix, recursive)| ==>
      Components(Walk(entries, prefix, recursive)[a]) != Components(Walk(entries, prefix, recursive)[b])
    decreases entries
  {
    if entries != [] {
      WellFormedTail(entries);
      var x := WalkEntry(entries[0], prefix, recursive);
      var y := Walk(entries[1..], prefix, recursive);
      WalkEntryDistinct(entries[0], prefix, recursive);
      WalkDistinct(entries[1..], prefix, recursive);
      forall a, b | 0 <= a < |x| && 0 <= b < |y| ensures Components(x[a]) != Components(y[b]) {
        WalkEntryShape(entries[0], prefix, recursive, x[a]);
        WalkShape(entries[1..], prefix, recursive, y[b]);
      }
      var w := x + y;
      forall a, b | 0 <= a < b < |w| ensures Components(w[a]) != Components(w[b]) {
        if b < |x| {
          assert w[a] == x[a] && w[b] == x[b];
        } else if a >= |x| {
          assert w[a] == y[a - |x|] && w[b] == y[b - |x|];
        } else {
          assert w[a] == x[a] && w[b] == y[b - |x|];
        }
      }
    }
  }

  lemma {:induction false} WalkEntryDistinct(e: Entry, prefix: seq<string>, recursive: bool)
    requires EntryWellFormed(e)
    ensures forall a, b :: 0 <= a < b < |WalkEntry(e, prefix, recursive)| ==>
      Components(WalkEntry(e, prefix, recursive)[a]) != Components(WalkEntry(e, prefix, recursive)[b])
    decreases e
  {
    if e.Dir? {
      WalkDistinct(e.children, prefix + [e.name], recursive);
    }
  }

  /** A listing of a well-formed root never holds the same relative path twice. */
  lemma ListedPathsDistinct(root: seq<Entry>, recursive: bool)
    requires WellFormed(root)
    ensures DistinctPaths(ListFiles(Some(root), recursive))
  {
    var l := ListFiles(Some(root), recursive);
    WalkDistinct(root, [], recursive);
    forall a, b | 0 <= a < b < |l| ensures RelativePath(l[a]) != RelativePath(l[b]) {
      WalkShape(root, [], recursive, l[a]);
      WalkShape(root, [], recursive, l[b]);
      if RelativePath(l[a]) == RelativePath(l[b]) {
        JoinInjective(Components(l[a]), Components(l[b]));
      }
    }
  }
}
