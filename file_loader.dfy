/**
 * The file-metadata loader of a table or partition directory.
 *
 * A loader is built for one location with the descriptors of the previous
 * load. `Load` lists the location, narrows the listing for transactional and
 * Hudi tables, and then reconciles every remaining file with the old
 * descriptor of the same relative path: an unchanged file keeps its old
 * descriptor (a skipped file), any other gets a fresh one (a loaded file).
 * Block locations of fresh descriptors are resolved only when the
 * configuration does not switch preloading off for the location.
 */
module FileLoader {
  import opened Wrappers
  import opened Paths
  import opened Storage
  import opened BlockConfig
  import opened ListMaps
  import opened Descriptors
  import opened Acid
  import opened Hudi

  datatype FileFormat = Text | Parquet | Orc | HudiParquet

  /** The counters of one load. */
  datatype LoadStats = LoadStats(loadedFiles: nat, skippedFiles: nat, filesSupersededByAcidState: nat)

  /** What a reader of a transactional table is given: its write-id snapshot and each directory's range. */
  datatype AcidState = AcidState(writeIds: ValidWriteIds, dirs: map<string, AcidDir>)

  // ---------------------------------------------------------------------------
  // What a load computes
  // ---------------------------------------------------------------------------

  /** The listed files a load reconciles: the ACID survivors, then only the latest Hudi versions. */
  function Candidates(listing: seq<RawFile>, acid: Option<AcidState>, format: FileFormat): seq<RawFile> {
    var visible := if acid.Some? then AcidKept(acid.value.writeIds, acid.value.dirs, listing) else listing;
    if format == HudiParquet then SelectLatest(visible) else visible
  }

  /** The listed files a compaction replaced; none outside transactional tables. */
  function SupersededCount(listing: seq<RawFile>, acid: Option<AcidState>): nat {
    if acid.Some? then AcidSuperseded(acid.value.writeIds, acid.value.dirs, listing) else 0
  }

  /** No old descriptor can stand for the file. */
  predicate Fresh(byPath: map<string, FileDescriptor>, f: RawFile) {
    Reusable(byPath, RelativePath(f), f.size, f.mtime).None?
  }

  /** How many of the files need a fresh descriptor. */
  function CountFresh(files: seq<RawFile>, byPath: map<string, FileDescriptor>): (r: nat)
    ensures r <= |files|
    decreases |files|
  {
    if files == [] then 0
    else CountFresh(files[..|files| - 1], byPath) + (if Fresh(byPath, files[|files| - 1]) then 1 else 0)
  }

  /** The counters a load of `cands` ends with. */
  function ExpectedStats(cands: seq<RawFile>, byPath: map<string, FileDescriptor>, superseded: nat): LoadStats {
    LoadStats(CountFresh(cands, byPath), |cands| - CountFresh(cands, byPath), superseded)
  }

  /** `fds` holds, position by position, the descriptor reconciled for each of `files`. */
  predicate LoadedAs(fds: seq<FileDescriptor>, files: seq<RawFile>, byPath: map<string, FileDescriptor>,
                     index: seq<Host>, preload: bool) {
    |fds| == |files|
    && forall i :: 0 <= i < |files| ==>
      Reconciled(fds[i], byPath, RelativePath(files[i]), files[i].size, files[i].mtime, files[i].blocks, index, preload)
  }

  lemma {:induction false} LoadedAsGrows(fds: seq<FileDescriptor>, files: seq<RawFile>, byPath: map<string, FileDescriptor>,
                      index: seq<Host>, index': seq<Host>, preload: bool)
    requires LoadedAs(fds, files, byPath, index, preload) && index <= index'
    ensures LoadedAs(fds, files, byPath, index', preload)
  {
    forall i | 0 <= i < |files|
      ensures Reconciled(fds[i], byPath, RelativePath(files[i]), files[i].size, files[i].mtime, files[i].blocks, index', preload)
    {
      if Reusable(byPath, RelativePath(files[i]), files[i].size, files[i].mtime).None? {
        DescribesGrows(fds[i], RelativePath(files[i]), files[i].size, files[i].mtime, files[i].blocks, index, index', preload);
      }
    }
  }

  /** One more reconciled file extends the load and its count of fresh files. */
  lemma {:induction false} LoadedAsStep(fds: seq<FileDescriptor>, files: seq<RawFile>, i: nat, fd: FileDescriptor,
                                        byPath: map<string, FileDescriptor>, index: seq<Host>, index': seq<Host>, preload: bool)
    requires i < |files| && index <= index'
    requires LoadedAs(fds, files[..i], byPath, index, preload)
    requires Reconciled(fd, byPath, RelativePath(files[i]), files[i].size, files[i].mtime, files[i].blocks, index', preload)
    ensures LoadedAs(fds + [fd], files[..i + 1], byPath, index', preload)
    ensures CountFresh(files[..i + 1], byPath) == CountFresh(files[..i], byPath) + (if Fresh(byPath, files[i]) then 1 else 0)
  {
    assert files[..i + 1][..i] == files[..i];
    LoadedAsGrows(fds, files[..i], byPath, index, index', preload);
  }

  // ---------------------------------------------------------------------------
  // The loader
  // ---------------------------------------------------------------------------

  class FileMetadataLoader {
    /** The table or partition directory, as a URI. */
    const location: string
    const recursive: bool
    /** The descriptors of the previous load; they are read, never changed. */
    const oldFds: seq<FileDescriptor>
    /** The host index shared with other loaders. */
    const hostIndex: ListMap<Host>
    const conf: Configuration
    /** Present for transactional tables. */
    const acid: Option<AcidState>
    const format: FileFormat

    var loadedFds: seq<FileDescriptor>
    var stats: LoadStats

    constructor(location: string, recursive: bool, oldFds: seq<FileDescriptor>, hostIndex: ListMap<Host>,
                conf: Configuration, acid: Option<AcidState>, format: FileFormat)
      ensures this.location == location && this.recursive == recursive && this.oldFds == oldFds
      ensures this.hostIndex == hostIndex && this.conf == conf && this.acid == acid && this.format == format
      ensures loadedFds == [] && stats == LoadStats(0, 0, 0)
    {
      this.location := location;
      this.recursive := recursive;
      this.oldFds := oldFds;
      this.hostIndex := hostIndex;
      this.conf := conf;
      this.acid := acid;
      this.format := format;
      loadedFds := [];
      stats := LoadStats(0, 0, 0);
    }

    /** The files this loader reconciles when the location holds `root`. */
    function CandidatesOf(root: Option<seq<Entry>>): seq<RawFile>
      reads this
    {
      Candidates(ListFiles(root, recursive), acid, format)
    }

    /**
     * Loads the location as the storage now holds it (`root`, None when the
     * directory does not exist): `loadedFds` gets one reconciled descriptor
     * per candidate file and `stats` counts the fresh, the reused and the
     * superseded ones. The host index only grows.
     */
    method Load(root: Option<seq<Entry>>)
      requires hostIndex.Valid()
      modifies this, hostIndex
      ensures hostIndex.Valid() && old(hostIndex.list) <= hostIndex.list
      ensures LoadedAs(loadedFds, CandidatesOf(root), OldByPath(oldFds), hostIndex.list,
                       PreloadBlockLocations(conf, location))
      ensures stats == ExpectedStats(CandidatesOf(root), OldByPath(oldFds), SupersededCount(ListFiles(root, recursive), acid))
    {
      var listing := ListFiles(root, recursive);
      var cands := Candidates(listing, acid, format);
      var byPath := OldByPath(oldFds);
      var preload := PreloadBlockLocations(conf, location);
      var fds: seq<FileDescriptor> := [];
      var loaded: nat := 0;
      for i := 0 to |cands|
        invariant hostIndex.Valid() && old(hostIndex.list) <= hostIndex.list
        invariant LoadedAs(fds, cands[..i], byPath, hostIndex.list, preload)
        invariant loaded == CountFresh(cands[..i], byPath)
      {
        var f := cands[i];
        var relPath := RelativePath(f);
        ghost var before := hostIndex.list;
        var fd;
        match Reusable(byPath, relPath, f.size, f.mtime) {
          case Some(prev) =>
            fd := prev;
          case None =>
            fd := MakeDescriptor(relPath, f.size, f.mtime, f.blocks, preload, hostIndex);
            loaded := loaded + 1;
        }
        LoadedAsStep(fds, cands, i, fd, byPath, before, hostIndex.list, preload);
        fds := fds + [fd];
      }
      assert cands[..|cands|] == cands;
      loadedFds := fds;
      stats := LoadStats(loaded, |cands| - loaded, SupersededCount(listing, acid));
    }
  }

  // ---------------------------------------------------------------------------
  // Properties of loads
  // ---------------------------------------------------------------------------

  /** `fd` carries the path, length and modification time of `f`. */
  predicate Matches(fd: FileDescriptor, f: RawFile) {
    fd.relativePath == RelativePath(f) && fd.fileLength == f.size && fd.modificationTime == f.mtime
  }

  /** Whichever way it came, every loaded descriptor carries its file's path, length and time. */
  lemma {:induction false} LoadedAsMatches(fds: seq<FileDescriptor>, files: seq<RawFile>, oldFds: seq<FileDescriptor>,
                        index: seq<Host>, preload: bool)
    requires LoadedAs(fds, files, OldByPath(oldFds), index, preload)
    ensures forall i :: 0 <= i < |files| ==> Matches(fds[i], files[i])
  {
    forall i | 0 <= i < |files| ensures Matches(fds[i], files[i]) {
      ReconciledMatches(fds[i], oldFds, RelativePath(files[i]), files[i].size, files[i].mtime, files[i].blocks, index, preload);
    }
  }

  /** Without old descriptors every file is loaded fresh. */
  lemma {:induction false} FirstLoadCountsAll(files: seq<RawFile>)
    ensures CountFresh(files, map[]) == |files|
    decreases |files|
  {
    if files != [] {
      FirstLoadCountsAll(files[..|files| - 1]);
    }
  }

  lemma {:induction false} CountFreshNone(files: seq<RawFile>, byPath: map<string, FileDescriptor>)
    requires forall i :: 0 <= i < |files| ==> !Fresh(byPath, files[i])
    ensures CountFresh(files, byPath) == 0
    decreases |files|
  {
    if files != [] {
      CountFreshNone(files[..|files| - 1], byPath);
    }
  }

  lemma {:induction false} CountFreshOne(files: seq<RawFile>, byPath: map<string, FileDescriptor>, j: nat)
    requires j < |files| && Fresh(byPath, files[j])
    requires forall i :: 0 <= i < |files| && i != j ==> !Fresh(byPath, files[i])
    ensures CountFresh(files, byPath) == 1
    decreases |files|
  {
    var init := files[..|files| - 1];
    if j < |init| {
      CountFreshOne(init, byPath, j);
    } else {
      CountFreshNone(init, byPath);
    }
  }

  /** With one descriptor per file and no repeated paths, each file finds its own descriptor. */
  lemma {:induction false} OwnDescriptorsReusable(files: seq<RawFile>, fds: seq<FileDescriptor>, i: nat)
    requires DistinctPaths(files) && |fds| == |files| && i < |files|
    requires forall k :: 0 <= k < |files| ==> Matches(fds[k], files[k])
    ensures Reusable(OldByPath(fds), RelativePath(files[i]), files[i].size, files[i].mtime) == Some(fds[i])
  {
    forall a, b | 0 <= a < b < |fds| ensures fds[a].relativePath != fds[b].relativePath {
      assert Matches(fds[a], files[a]) && Matches(fds[b], files[b]);
    }
    OldByPathDistinct(fds, i);
  }

  /**
   * Refreshing with the descriptors of a previous load of the same files
   * reuses every one of them: nothing is loaded, everything is skipped, and
   * the new descriptors are the old ones.
   */
  lemma {:induction false} RefreshUnchanged(files: seq<RawFile>, fds: seq<FileDescriptor>, refreshed: seq<FileDescriptor>,
                         index: seq<Host>, preload: bool)
    requires DistinctPaths(files) && |fds| == |files|
    requires forall k :: 0 <= k < |files| ==> Matches(fds[k], files[k])
    requires LoadedAs(refreshed, files, OldByPath(fds), index, preload)
    ensures CountFresh(files, OldByPath(fds)) == 0
    ensures ExpectedStats(files, OldByPath(fds), 0) == LoadStats(0, |files|, 0)
    ensures refreshed == fds
  {
    forall i | 0 <= i < |files| ensures !Fresh(OldByPath(fds), files[i]) && refreshed[i] == fds[i] {
      OwnDescriptorsReusable(files, fds, i);
    }
    CountFreshNone(files, OldByPath(fds));
  }

  /** The listing after the storage set a new modification time on the `j`-th listed file. */
  function Touched(files: seq<RawFile>, j: nat, mtime: int): seq<RawFile>
    requires j < |files|
  {
    files[j := files[j].(mtime := mtime)]
  }

  /**
   * After touching one file, a refresh against the previous descriptors
   * loads exactly that file and reuses all the others.
   */
  lemma {:induction false} RefreshAfterTouch(files: seq<RawFile>, fds: seq<FileDescriptor>, j: nat, mtime: int,
                          refreshed: seq<FileDescriptor>, index: seq<Host>, preload: bool)
    requires DistinctPaths(files) && |fds| == |files| && j < |files| && mtime != files[j].mtime
    requires forall k :: 0 <= k < |files| ==> Matches(fds[k], files[k])
    requires LoadedAs(refreshed, Touched(files, j, mtime), OldByPath(fds), index, preload)
    ensures ExpectedStats(Touched(files, j, mtime), OldByPath(fds), 0) == LoadStats(1, |files| - 1, 0)
    ensures forall i :: 0 <= i < |files| && i != j ==> refreshed[i] == fds[i]
    ensures Describes(refreshed[j], RelativePath(files[j]), files[j].size, mtime, files[j].blocks, index, preload)
  {
    var touched := Touched(files, j, mtime);
    forall i | 0 <= i < |files| && i != j ensures !Fresh(OldByPath(fds), touched[i]) && refreshed[i] == fds[i] {
      OwnDescriptorsReusable(files, fds, i);
    }
    OwnDescriptorsReusable(files, fds, j);
    assert Fresh(OldByPath(fds), touched[j]);
    CountFreshOne(touched, OldByPath(fds), j);
  }

  /** A load with preloading off and no old descriptors gives every file an empty block list. */
  lemma {:induction false} NoPreloadNoBlocks(fds: seq<FileDescriptor>, files: seq<RawFile>, index: seq<Host>)
    requires LoadedAs(fds, files, OldByPath([]), index, false)
    ensures forall i :: 0 <= i < |fds| ==> fds[i].blocks == []
  {
  }

  /**
   * With the authority property of a location set to "false", a first load
   * of it leaves every descriptor without blocks.
   */
  lemma {:induction false} AuthorityOffNoBlocks(scheme: string, authority: string, path: string, fds: seq<FileDescriptor>,
                             files: seq<RawFile>, index: seq<Host>)
    requires WellFormedUri(Uri(scheme, authority, path))
    requires LoadedAs(fds, files, OldByPath([]), index,
      PreloadBlockLocations(map[AuthorityKey(authority) := "false"], RenderUri(Uri(scheme, authority, path))))
    ensures forall i :: 0 <= i < |fds| ==> fds[i].blocks == []
  {
    AuthorityFalseDisables(scheme, authority, path);
    NoPreloadNoBlocks(fds, files, index);
  }

  /** A location that does not exist loads nothing and counts nothing. */
  lemma {:induction false} MissingRootLoadsNothing(recursive: bool, acid: Option<AcidState>, format: FileFormat, fds: seq<FileDescriptor>,
                                byPath: map<string, FileDescriptor>, index: seq<Host>, preload: bool)
    requires LoadedAs(fds, Candidates(ListFiles(None, recursive), acid, format), byPath, index, preload)
    ensures fds == []
    ensures ExpectedStats(Candidates(ListFiles(None, recursive), acid, format), byPath,
      SupersededCount(ListFiles(None, recursive), acid)) == LoadStats(0, 0, 0)
  {
    if acid.Some? {
      assert AcidKept(acid.value.writeIds, acid.value.dirs, []) == [];
      assert AcidSuperseded(acid.value.writeIds, acid.value.dirs, []) == 0;
    }
    if format == HudiParquet {
      var v := if acid.Some? then AcidKept(acid.value.writeIds, acid.value.dirs, []) else [];
      assert |SelectLatest(v)| <= |v|;
    }
  }

  /** Every candidate is a listed file. */
  lemma {:induction false} CandidateListed(listing: seq<RawFile>, acid: Option<AcidState>, format: FileFormat, a: nat)
    requires a < |Candidates(listing, acid, format)|
    ensures Candidates(listing, acid, format)[a] in listing
  {
    var visible := if acid.Some? then AcidKept(acid.value.writeIds, acid.value.dirs, listing) else listing;
    var f := Candidates(listing, acid, format)[a];
    if format == HudiParquet {
      SelectLatestSound(visible, a);
    }
    assert f in visible;
    if acid.Some? {
      AcidKeptSpec(acid.value.writeIds, acid.value.dirs, listing, f);
    }
  }

  /**
   * No loaded descriptor comes from a hidden file or from a file in a hidden
   * directory: its path is the join of a listed file's visible directories
   * and visible name.
   */
  lemma {:induction false} LoadedNotHidden(root: seq<Entry>, recursive: bool, acid: Option<AcidState>, format: FileFormat,
                        fds: seq<FileDescriptor>, oldFds: seq<FileDescriptor>, index: seq<Host>, preload: bool, i: nat)
    requires LoadedAs(fds, Candidates(ListFiles(Some(root), recursive), acid, format), OldByPath(oldFds), index, preload)
    requires i < |fds|
    ensures exists f :: (f in ListFiles(Some(root), recursive) && fds[i].relativePath == RelativePath(f)
      && !Hidden(f.name) && forall k :: 0 <= k < |f.dirs| ==> !Hidden(f.dirs[k]))
  {
    var cands := Candidates(ListFiles(Some(root), recursive), acid, format);
    LoadedAsMatches(fds, cands, oldFds, index, preload);
    CandidateListed(ListFiles(Some(root), recursive), acid, format, i);
    ListedNotHidden(root, recursive, cands[i]);
  }

  /** Hidden staging directories added next to a table's data change nothing a load sees. */
  lemma {:induction false} HiddenDirectoryIgnored(root: seq<Entry>, e: Entry, recursive: bool, acid: Option<AcidState>, format: FileFormat)
    requires Hidden(e.name)
    ensures Candidates(ListFiles(Some(root + [e]), recursive), acid, format)
      == Candidates(ListFiles(Some(root), recursive), acid, format)
    ensures SupersededCount(ListFiles(Some(root + [e]), recursive), acid) == SupersededCount(ListFiles(Some(root), recursive), acid)
  {
    HiddenEntryIgnored(root, e, [], recursive);
  }

  /** On a plain table the candidates are the listing, so the counters add up to the listed files. */
  lemma {:induction false} PlainCountsAddUp(listing: seq<RawFile>, format: FileFormat, byPath: map<string, FileDescriptor>)
    requires format != HudiParquet
    ensures ExpectedStats(Candidates(listing, None, format), byPath, 0).loadedFiles
      + ExpectedStats(Candidates(listing, None, format), byPath, 0).skippedFiles == |listing|
  {
  }

  /**
   * On a transactional table every listed file is loaded, skipped,
   * superseded or invisible, and exactly one of these.
   */
  lemma {:induction false} AcidCountsConserved(listing: seq<RawFile>, acid: AcidState, byPath: map<string, FileDescriptor>)
    ensures var s := ExpectedStats(Candidates(listing, Some(acid), Text), byPath, SupersededCount(listing, Some(acid)));
      s.loadedFiles + s.skippedFiles + s.filesSupersededByAcidState
      + |WithStatus(acid.writeIds, acid.dirs, listing, listing, Invisible)| == |listing|
  {
    AcidCountsAddUp(acid.writeIds, acid.dirs, listing);
  }

  /**
   * A first load of a minor-compacted table loads only the compacted files
   * and counts the K files of the deltas it replaced as superseded.
   */
  lemma {:induction false} MinorCompactionLoad(w: ValidWriteIds, dirs: map<string, AcidDir>, compacted: seq<RawFile>,
                            deltas: seq<RawFile>, c: string, format: FileFormat)
    requires format != HudiParquet
    requires c in dirs && Compacted(dirs[c]) && Visible(w, dirs[c]) && |compacted| > 0
    requires forall i :: 0 <= i < |compacted| ==> |compacted[i].dirs| > 0 && compacted[i].dirs[0] == c
    requires forall i :: 0 <= i < |deltas| ==>
      RangeOf(dirs, deltas[i]).Some? && !Compacted(RangeOf(dirs, deltas[i]).value)
      && Visible(w, RangeOf(dirs, deltas[i]).value) && Covers(dirs[c], RangeOf(dirs, deltas[i]).value)
    ensures var listing := compacted + deltas;
      var acid := Some(AcidState(w, dirs));
      ExpectedStats(Candidates(listing, acid, format), map[], SupersededCount(listing, acid))
        == LoadStats(|compacted|, 0, |deltas|)
  {
    MinorCompaction(w, dirs, compacted, deltas, c);
    FirstLoadCountsAll(compacted);
  }

  // ---------------------------------------------------------------------------
  // Candidates of a well-formed root never repeat a path
  // ---------------------------------------------------------------------------

  lemma {:induction false} WithStatusDistinct(w: ValidWriteIds, dirs: map<string, AcidDir>, files: seq<RawFile>,
                                              part: seq<RawFile>, s: Status)
    requires DistinctPaths(part)
    ensures DistinctPaths(WithStatus(w, dirs, files, part, s))
    decreases |part|
  {
    if part != [] {
      var init := part[..|part| - 1];
      var last := part[|part| - 1];
      assert DistinctPaths(init);
      WithStatusDistinct(w, dirs, files, init, s);
      var r := WithStatus(w, dirs, files, part, s);
      var prev := WithStatus(w, dirs, files, init, s);
      if |r| > |prev| {
        forall a | 0 <= a < |prev| ensures RelativePath(prev[a]) != RelativePath(last) {
          WithStatusSpec(w, dirs, files, init, s, prev[a]);
          var k :| 0 <= k < |init| && init[k] == prev[a];
          assert part[k] == init[k];
        }
      }
    }
  }

  lemma {:induction false} SelectLatestKeepsDistinct(files: seq<RawFile>)
    requires DistinctPaths(files)
    ensures DistinctPaths(SelectLatest(files))
  {
    var r := SelectLatest(files);
    forall a, b | 0 <= a < b < |r| ensures RelativePath(r[a]) != RelativePath(r[b]) {
      PositionOfSpec(files, LatestFlags(files), |files|, a);
      PositionOfSpec(files, LatestFlags(files), |files|, b);
      PositionOfIncreasing(files, LatestFlags(files), |files|, a, b);
    }
  }

  /** The candidates of a well-formed root have pairwise distinct relative paths. */
  lemma {:induction false} CandidatesDistinct(root: seq<Entry>, recursive: bool, acid: Option<AcidState>, format: FileFormat)
    requires WellFormed(root)
    ensures DistinctPaths(Candidates(ListFiles(Some(root), recursive), acid, format))
  {
    var listing := ListFiles(Some(root), recursive);
    ListedPathsDistinct(root, recursive);
    if acid.Some? {
      WithStatusDistinct(acid.value.writeIds, acid.value.dirs, listing, listing, Live);
    }
    var visible := if acid.Some? then AcidKept(acid.value.writeIds, acid.value.dirs, listing) else listing;
    if format == HudiParquet {
      SelectLatestKeepsDistinct(visible);
    }
  }

  /**
   * Loading a well-formed table twice, the second time against the first
   * load's descriptors, reuses everything: loaded 0, skipped all, and the
   * same descriptor list.
   */
  lemma {:induction false} IdempotentRefresh(root: seq<Entry>, recursive: bool, acid: Option<AcidState>, format: FileFormat,
                          oldFds: seq<FileDescriptor>, first: seq<FileDescriptor>, second: seq<FileDescriptor>,
                          index: seq<Host>, index': seq<Host>, preload: bool)
    requires WellFormed(root)
    requires LoadedAs(first, Candidates(ListFiles(Some(root), recursive), acid, format), OldByPath(oldFds), index, preload)
    requires LoadedAs(second, Candidates(ListFiles(Some(root), recursive), acid, format), OldByPath(first), index', preload)
    ensures second == first
    ensures CountFresh(Candidates(ListFiles(Some(root), recursive), acid, format), OldByPath(first)) == 0
  {
    var cands := Candidates(ListFiles(Some(root), recursive), acid, format);
    CandidatesDistinct(root, recursive, acid, format);
    LoadedAsMatches(first, cands, oldFds, index, preload);
    RefreshUnchanged(cands, first, second, index', preload);
  }
}
