/**
 * The file-metadata loader of an Iceberg table.
 *
 * No directory is walked: a manifest reader has already decided which data
 * and delete files make up the table, and hands them over as content files
 * with absolute paths. Each one is keyed by its path relative to the table
 * location, or by its absolute path when it is stored elsewhere, and is
 * reconciled with the old descriptor of that key: a file that kept its size
 * keeps its old descriptor, any other gets a fresh one. Either way the
 * manifest's content kind, partition and sequence number are attached anew.
 * When data files must lie in the table location, a file outside it fails
 * the whole load.
 */
module IcebergLoader {
  import opened Wrappers
  import opened Paths
  import opened Storage
  import opened BlockConfig
  import opened ListMaps
  import opened Descriptors
  import opened FileLoader

  datatype ContentKind = Data | PositionDeletes | EqualityDeletes

  /** A live file of the snapshot, as the manifest reader and the storage describe it. */
  datatype ContentFile = ContentFile(
    path: string,
    size: nat,
    mtime: int,
    blocks: seq<BlockLocation>,
    content: ContentKind,
    partitionId: nat,
    sequence: nat)

  /** A file descriptor with the manifest's metadata attached. */
  datatype IcebergFileDescriptor = IcebergFileDescriptor(
    fd: FileDescriptor,
    content: ContentKind,
    partitionId: nat,
    sequence: nat)

  /** The descriptor part of each Iceberg descriptor. */
  function Fds(ifds: seq<IcebergFileDescriptor>): (r: seq<FileDescriptor>)
    ensures |r| == |ifds| && forall i :: 0 <= i < |ifds| ==> r[i] == ifds[i].fd
  {
    seq(|ifds|, i requires 0 <= i < |ifds| => ifds[i].fd)
  }

  /** The key a content file is diffed under. */
  function Key(location: string, path: string): string {
    if Under(location, path) then Relativize(location, path) else path
  }

  /** Data files are immutable: an old descriptor stands for the file while its size is unchanged. */
  function ReusableBySize(byPath: map<string, FileDescriptor>, key: string, size: nat): (r: Option<FileDescriptor>)
    ensures r.Some? <==> key in byPath && byPath[key].fileLength == size
    ensures r.Some? ==> r.value == byPath[key]
  {
    if key in byPath && byPath[key].fileLength == size then Some(byPath[key]) else None
  }

  /** No old descriptor can stand for the content file. */
  predicate IcebergFresh(location: string, byPath: map<string, FileDescriptor>, f: ContentFile) {
    ReusableBySize(byPath, Key(location, f.path), f.size).None?
  }

  /**
   * The descriptor a load produces for `f`: the manifest metadata of `f`,
   * and the old descriptor of its key, or a fresh one whose blocks follow
   * the preload setting of the file's own location.
   */
  predicate IcebergReconciled(ifd: IcebergFileDescriptor, byPath: map<string, FileDescriptor>, location: string,
                              f: ContentFile, conf: Configuration, index: seq<Host>) {
    ifd.content == f.content && ifd.partitionId == f.partitionId && ifd.sequence == f.sequence
    && match ReusableBySize(byPath, Key(location, f.path), f.size)
       case Some(prev) => ifd.fd == prev
       case None => Describes(ifd.fd, Key(location, f.path), f.size, f.mtime, f.blocks, index,
                              PreloadBlockLocations(conf, f.path))
  }

  predicate IcebergLoadedAs(ifds: seq<IcebergFileDescriptor>, files: seq<ContentFile>, byPath: map<string, FileDescriptor>,
                            location: string, conf: Configuration, index: seq<Host>) {
    |ifds| == |files|
    && forall i :: 0 <= i < |files| ==> IcebergReconciled(ifds[i], byPath, location, files[i], conf, index)
  }

  /** How many of the content files need a fresh descriptor. */
  function CountIcebergFresh(files: seq<ContentFile>, byPath: map<string, FileDescriptor>, location: string): (r: nat)
    ensures r <= |files|
    decreases |files|
  {
    if files == [] then 0
    else
      CountIcebergFresh(files[..|files| - 1], byPath, location)
      + (if IcebergFresh(location, byPath, files[|files| - 1]) then 1 else 0)
  }

  /** The first content file outside the table location, if any. */
  function FirstOutside(location: string, files: seq<ContentFile>): (r: Option<nat>)
    ensures r.Some? ==> (r.value < |files| && !Under(location, files[r.value].path)
      && forall j :: 0 <= j < r.value ==> Under(location, files[j].path))
    ensures r.None? ==> forall j :: 0 <= j < |files| ==> Under(location, files[j].path)
    decreases |files|
  {
    if files == [] then None
    else if !Under(location, files[0].path) then Some(0)
    else match FirstOutside(location, files[1..])
      case None => None
      case Some(k) => Some(k + 1)
  }

  lemma {:induction false} IcebergLoadedAsStep(ifds: seq<IcebergFileDescriptor>, files: seq<ContentFile>, i: nat,
                                               ifd: IcebergFileDescriptor, byPath: map<string, FileDescriptor>,
                                               location: string, conf: Configuration, index: seq<Host>, index': seq<Host>)
    requires i < |files| && index <= index'
    requires IcebergLoadedAs(ifds, files[..i], byPath, location, conf, index)
    requires IcebergReconciled(ifd, byPath, location, files[i], conf, index')
    ensures IcebergLoadedAs(ifds + [ifd], files[..i + 1], byPath, location, conf, index')
  {
    var ifds' := ifds + [ifd];
    forall k | 0 <= k < i + 1 ensures IcebergReconciled(ifds'[k], byPath, location, files[..i + 1][k], conf, index') {
      assert files[..i + 1][k] == files[k];
      if k < i {
        assert files[..i][k] == files[k] && ifds'[k] == ifds[k];
        IcebergReconciledGrows(ifds[k], byPath, location, files[k], conf, index, index');
      }
    }
  }

  lemma CountIcebergFreshStep(files: seq<ContentFile>, i: nat, byPath: map<string, FileDescriptor>, location: string)
    requires i < |files|
    ensures CountIcebergFresh(files[..i + 1], byPath, location)
      == CountIcebergFresh(files[..i], byPath, location) + (if IcebergFresh(location, byPath, files[i]) then 1 else 0)
  {
    assert files[..i + 1][..i] == files[..i];
  }

  lemma IcebergReconciledGrows(ifd: IcebergFileDescriptor, byPath: map<string, FileDescriptor>, location: string,
                               f: ContentFile, conf: Configuration, index: seq<Host>, index': seq<Host>)
    requires IcebergReconciled(ifd, byPath, location, f, conf, index) && index <= index'
    ensures IcebergReconciled(ifd, byPath, location, f, conf, index')
  {
    var key := Key(location, f.path);
    if ReusableBySize(byPath, key, f.size).None? {
      DescribesGrows(ifd.fd, key, f.size, f.mtime, f.blocks, index, index', PreloadBlockLocations(conf, f.path));
    }
  }

  class IcebergFileMetadataLoader {
    /** The table location. */
    const location: string
    /** The descriptors of the previous load; they are read, never changed. */
    const oldFds: seq<IcebergFileDescriptor>
    const hostIndex: ListMap<Host>
    /** The live content files of the snapshot, from the manifest reader. */
    const contentFiles: seq<ContentFile>
    const requiresDataFilesInTableLocation: bool
    const conf: Configuration

    var loadedIcebergFds: seq<IcebergFileDescriptor>
    var stats: LoadStats

    constructor(location: string, oldFds: seq<IcebergFileDescriptor>, hostIndex: ListMap<Host>,
                contentFiles: seq<ContentFile>, requiresDataFilesInTableLocation: bool, conf: Configuration)
      ensures this.location == location && this.oldFds == oldFds && this.hostIndex == hostIndex
      ensures this.contentFiles == contentFiles && this.conf == conf
      ensures this.requiresDataFilesInTableLocation == requiresDataFilesInTableLocation
      ensures loadedIcebergFds == [] && stats == LoadStats(0, 0, 0)
    {
      this.location := location;
      this.oldFds := oldFds;
      this.hostIndex := hostIndex;
      this.contentFiles := contentFiles;
      this.requiresDataFilesInTableLocation := requiresDataFilesInTableLocation;
      this.conf := conf;
      loadedIcebergFds := [];
      stats := LoadStats(0, 0, 0);
    }

    /** The plain descriptors of the last load. */
    function LoadedFds(): seq<FileDescriptor>
      reads this
    {
      Fds(loadedIcebergFds)
    }

    /**
     * Reconciles every content file. When data files must lie in the table
     * location, the first file outside it fails the load with its path and
     * no descriptors or counts are kept; otherwise `loadedIcebergFds` holds
     * one reconciled descriptor per content file and `stats` counts the
     * fresh and the reused ones.
     */
    method Load() returns (r: Outcome<string>)
      requires hostIndex.Valid()
      modifies this, hostIndex
      ensures hostIndex.Valid() && old(hostIndex.list) <= hostIndex.list
      ensures r.Fail? <==> requiresDataFilesInTableLocation && FirstOutside(location, contentFiles).Some?
      ensures r.Fail? ==> (r.error == contentFiles[FirstOutside(location, contentFiles).value].path
        && loadedIcebergFds == [] && stats == LoadStats(0, 0, 0))
      ensures r.Pass? ==> IcebergLoadedAs(loadedIcebergFds, contentFiles, OldByPath(Fds(oldFds)), location, conf, hostIndex.list)
      ensures r.Pass? ==>
        var count := CountIcebergFresh(contentFiles, OldByPath(Fds(oldFds)), location);
        stats == LoadStats(count, |contentFiles| - count, 0)
    {
      var byPath := OldByPath(Fds(oldFds));
      var ifds, loaded, outside := ReconcileAll(byPath);
      match outside {
        case Some(k) =>
          loadedIcebergFds := [];
          stats := LoadStats(0, 0, 0);
          r := Fail(contentFiles[k].path);
        case None =>
          loadedIcebergFds := ifds;
          stats := LoadStats(loaded, |contentFiles| - loaded, 0);
          r := Pass;
      }
    }

    /**
     * The loop of a load: reconciles the content files in order, and stops at
     * the first one outside the table location when data files must lie in it.
     */
    method ReconcileAll(byPath: map<string, FileDescriptor>)
      returns (ifds: seq<IcebergFileDescriptor>, loaded: nat, outside: Option<nat>)
      requires hostIndex.Valid()
      modifies hostIndex
      ensures hostIndex.Valid() && old(hostIndex.list) <= hostIndex.list
      ensures outside.Some? <==> requiresDataFilesInTableLocation && FirstOutside(location, contentFiles).Some?
      ensures outside.Some? ==> outside == FirstOutside(location, contentFiles)
      ensures outside.None? ==> IcebergLoadedAs(ifds, contentFiles, byPath, location, conf, hostIndex.list)
      ensures outside.None? ==> loaded == CountIcebergFresh(contentFiles, byPath, location)
    {
      ifds := [];
      loaded := 0;
      for i := 0 to |contentFiles|
        invariant hostIndex.Valid() && old(hostIndex.list) <= hostIndex.list
        invariant requiresDataFilesInTableLocation ==> FirstOutside(location, contentFiles[..i]) == None
        invariant IcebergLoadedAs(ifds, contentFiles[..i], byPath, location, conf, hostIndex.list)
        invariant loaded == CountIcebergFresh(contentFiles[..i], byPath, location)
      {
        if requiresDataFilesInTableLocation {
          if !Under(location, contentFiles[i].path) {
            FirstOutsideAfter(location, contentFiles, i);
            outside := Some(i);
            return;
          }
          InsideAfter(location, contentFiles, i);
        }
        ifds, loaded := Extend(byPath, ifds, loaded, i);
      }
      assert contentFiles[..|contentFiles|] == contentFiles;
      outside := None;
    }

    /** One step of the loop: reconciles the `i`-th content file and appends its descriptor. */
    method Extend(byPath: map<string, FileDescriptor>, ifds: seq<IcebergFileDescriptor>, loaded: nat, i: nat)
      returns (ifds': seq<IcebergFileDescriptor>, loaded': nat)
      requires hostIndex.Valid() && i < |contentFiles|
      requires IcebergLoadedAs(ifds, contentFiles[..i], byPath, location, conf, hostIndex.list)
      requires loaded == CountIcebergFresh(contentFiles[..i], byPath, location)
      modifies hostIndex
      ensures hostIndex.Valid() && old(hostIndex.list) <= hostIndex.list
      ensures IcebergLoadedAs(ifds', contentFiles[..i + 1], byPath, location, conf, hostIndex.list)
      ensures loaded' == CountIcebergFresh(contentFiles[..i + 1], byPath, location)
    {
      ghost var before := hostIndex.list;
      var ifd, isFresh := Reconcile(byPath, contentFiles[i]);
      IcebergLoadedAsStep(ifds, contentFiles, i, ifd, byPath, location, conf, before, hostIndex.list);
      CountIcebergFreshStep(contentFiles, i, byPath, location);
      ifds' := ifds + [ifd];
      loaded' := if isFresh then loaded + 1 else loaded;
    }

    /** The descriptor of one content file, and whether it had to be built. */
    method Reconcile(byPath: map<string, FileDescriptor>, f: ContentFile) returns (ifd: IcebergFileDescriptor, isFresh: bool)
      requires hostIndex.Valid()
      modifies hostIndex
      ensures hostIndex.Valid() && old(hostIndex.list) <= hostIndex.list
      ensures IcebergReconciled(ifd, byPath, location, f, conf, hostIndex.list)
      ensures isFresh == IcebergFresh(location, byPath, f)
    {
      var key := if Under(location, f.path) then Relativize(location, f.path) else f.path;
      var fd;
      match ReusableBySize(byPath, key, f.size) {
        case Some(prev) =>
          fd := prev;
          isFresh := false;
        case None =>
          fd := MakeDescriptor(key, f.size, f.mtime, f.blocks, PreloadBlockLocations(conf, f.path), hostIndex);
          isFresh := true;
      }
      ifd := IcebergFileDescriptor(fd, f.content, f.partitionId, f.sequence);
    }
  }

  /** The first file outside the location is the one after a run of files inside it. */
  lemma FirstOutsideAt(location: string, files: seq<ContentFile>, i: nat)
    requires i < |files| && !Under(location, files[i].path)
    requires forall j :: 0 <= j < i ==> Under(location, files[j].path)
    ensures FirstOutside(location, files) == Some(i)
  {
  }

  /** A file outside the location after a prefix inside it is the first outside. */
  lemma FirstOutsideAfter(location: string, files: seq<ContentFile>, i: nat)
    requires i < |files| && !Under(location, files[i].path)
    requires FirstOutside(location, files[..i]) == None
    ensures FirstOutside(location, files) == Some(i)
  {
    assert forall j :: 0 <= j < i ==> files[..i][j] == files[j];
    FirstOutsideAt(location, files, i);
  }

  /** A prefix inside the location stays inside when the next file is. */
  lemma InsideAfter(location: string, files: seq<ContentFile>, i: nat)
    requires i < |files| && Under(location, files[i].path)
    requires FirstOutside(location, files[..i]) == None
    ensures FirstOutside(location, files[..i + 1]) == None
  {
    assert forall j :: 0 <= j < i ==> files[..i][j] == files[j];
    assert forall j :: 0 <= j < i + 1 ==> files[..i + 1][j] == files[j];
  }

  // ---------------------------------------------------------------------------
  // Properties of Iceberg loads
  // ---------------------------------------------------------------------------

  /** `ifd` carries the key and the size of `f`. */
  predicate IcebergMatches(ifd: IcebergFileDescriptor, location: string, f: ContentFile) {
    ifd.fd.relativePath == Key(location, f.path) && ifd.fd.fileLength == f.size
  }

  /** No two content files share a key. */
  predicate DistinctKeys(location: string, files: seq<ContentFile>) {
    forall a, b :: 0 <= a < b < |files| ==> Key(location, files[a].path) != Key(location, files[b].path)
  }

  /**
   * Content files with distinct paths have distinct keys when every file
   * stored outside the table location is an absolute URI with a scheme (so
   * its key holds a ':') and no path relative to the location holds a ':'
   * (as Hadoop paths do not). SchemelessKeysCollide shows two paths that
   * share a key once the scheme condition is dropped.
   */
  lemma {:induction false} KeysDistinct(location: string, files: seq<ContentFile>)
    requires forall a, b :: 0 <= a < b < |files| ==> files[a].path != files[b].path
    requires forall i :: 0 <= i < |files| && !Under(location, files[i].path) ==> ParseUri(files[i].path).Some?
    requires forall i :: 0 <= i < |files| && Under(location, files[i].path) ==> ':' !in Relativize(location, files[i].path)
    ensures DistinctKeys(location, files)
  {
    forall a, b | 0 <= a < b < |files| ensures Key(location, files[a].path) != Key(location, files[b].path) {
      var pa, pb := files[a].path, files[b].path;
      if Under(location, pa) && Under(location, pb) {
        assert Resolve(location, Key(location, pa)) == pa;
        assert Resolve(location, Key(location, pb)) == pb;
      } else if !Under(location, pa) && Under(location, pb) {
        SchemeHasColon(pa);
      } else if Under(location, pa) && !Under(location, pb) {
        SchemeHasColon(pb);
      }
    }
  }

  /** A path that parses as a URI holds the ':' of its scheme. */
  lemma SchemeHasColon(path: string)
    requires ParseUri(path).Some?
    ensures ':' in path
  {
    var i := IndexOf(path, ':', 0).value;
    assert path[i] == ':';
  }

  /** Without a scheme, a file outside the location can take the key of one under it. */
  lemma SchemelessKeysCollide()
    ensures Key("s3://b/t", "s3://b/t/x") == Key("s3://b/t", "x") == "x"
  {
    var loc := "s3://b/t";
    assert TrimSlashes(loc) == loc;
    assert Under(loc, "s3://b/t/x");
    assert !Under(loc, "x");
  }

  /** Whichever way it came, every loaded descriptor carries its file's key and size. */
  lemma {:induction false} IcebergLoadedAsMatches(ifds: seq<IcebergFileDescriptor>, files: seq<ContentFile>,
                                                  oldFds: seq<IcebergFileDescriptor>, location: string,
                                                  conf: Configuration, index: seq<Host>)
    requires IcebergLoadedAs(ifds, files, OldByPath(Fds(oldFds)), location, conf, index)
    ensures forall i :: 0 <= i < |files| ==> IcebergMatches(ifds[i], location, files[i])
  {
    forall i | 0 <= i < |files| ensures IcebergMatches(ifds[i], location, files[i]) {
      var key := Key(location, files[i].path);
      if ReusableBySize(OldByPath(Fds(oldFds)), key, files[i].size).Some? {
        OldByPathLast(Fds(oldFds), key);
      }
    }
  }

  /** Exactly the files from position `k` on are fresh: they number |files| − k. */
  lemma {:induction false} CountFreshFrom(files: seq<ContentFile>, byPath: map<string, FileDescriptor>,
                                          location: string, k: nat)
    requires k <= |files|
    requires forall i :: 0 <= i < |files| ==> (IcebergFresh(location, byPath, files[i]) <==> k <= i)
    ensures CountIcebergFresh(files, byPath, location) == |files| - k
    decreases |files|
  {
    if files != [] {
      var init := files[..|files| - 1];
      if k <= |init| {
        CountFreshFrom(init, byPath, location, k);
      } else {
        CountFreshFrom(init, byPath, location, |init|);
      }
    }
  }

  /**
   * Refreshing with the descriptors of the first `k` of the content files
   * reuses those `k` and loads the other n − k; the output again has one
   * descriptor per content file. With k = 0 this is a first load, with
   * k = n a full refresh. It holds for files stored outside the table
   * location as long as no two files share a key, which KeysDistinct
   * derives from the paths.
   */
  lemma {:induction false} PartialRefresh(files: seq<ContentFile>, location: string, prior: seq<IcebergFileDescriptor>,
                                          k: nat, conf: Configuration, index: seq<Host>)
    requires k <= |files| && |prior| == |files| && DistinctKeys(location, files)
    requires forall i :: 0 <= i < |files| ==> IcebergMatches(prior[i], location, files[i])
    ensures var count := CountIcebergFresh(files, OldByPath(Fds(prior[..k])), location);
      count == |files| - k && |files| - count == k
  {
    var old' := Fds(prior[..k]);
    var byPath := OldByPath(old');
    forall a, b | 0 <= a < b < |old'| ensures old'[a].relativePath != old'[b].relativePath {
      assert IcebergMatches(prior[a], location, files[a]) && IcebergMatches(prior[b], location, files[b]);
    }
    forall i | 0 <= i < |files| ensures IcebergFresh(location, byPath, files[i]) <==> k <= i {
      var key := Key(location, files[i].path);
      if i < k {
        OldByPathDistinct(old', i);
      } else {
        OldByPathKeys(old', key);
        forall j | 0 <= j < |old'| ensures old'[j].relativePath != key {
          assert IcebergMatches(prior[j], location, files[j]);
        }
      }
    }
    CountFreshFrom(files, byPath, location, k);
  }

  /**
   * A first load and a refresh with a prefix of its descriptors: the
   * counters of the refresh are n − k loaded and k skipped.
   */
  lemma {:induction false} RefreshWithPrefix(files: seq<ContentFile>, location: string, first: seq<IcebergFileDescriptor>,
                                             k: nat, conf: Configuration, index: seq<Host>)
    requires k <= |files| && DistinctKeys(location, files)
    requires IcebergLoadedAs(first, files, OldByPath(Fds([])), location, conf, index)
    ensures var count := CountIcebergFresh(files, OldByPath(Fds(first[..k])), location);
      LoadStats(count, |files| - count, 0) == LoadStats(|files| - k, k, 0)
  {
    IcebergLoadedAsMatches(first, files, [], location, conf, index);
    PartialRefresh(files, location, first, k, conf, index);
  }

  /** Reused or fresh, every loaded descriptor carries the manifest's current metadata. */
  lemma {:induction false} MetadataReattached(ifds: seq<IcebergFileDescriptor>, files: seq<ContentFile>,
                                              byPath: map<string, FileDescriptor>, location: string,
                                              conf: Configuration, index: seq<Host>, i: nat)
    requires IcebergLoadedAs(ifds, files, byPath, location, conf, index) && i < |files|
    ensures ifds[i].content == files[i].content && ifds[i].partitionId == files[i].partitionId
      && ifds[i].sequence == files[i].sequence
  {
  }

  /**
   * With the scheme property of the files' scheme set to "false", a first
   * load leaves every descriptor without blocks.
   */
  lemma {:induction false} SchemeOffNoBlocks(ifds: seq<IcebergFileDescriptor>, files: seq<ContentFile>, location: string,
                                             scheme: string, index: seq<Host>)
    requires forall i :: 0 <= i < |files| ==> ParseUri(files[i].path).Some? && ParseUri(files[i].path).value.scheme == scheme
    requires IcebergLoadedAs(ifds, files, OldByPath(Fds([])), location, map[SchemeKey(scheme) := "false"], index)
    ensures forall i :: 0 <= i < |ifds| ==> ifds[i].fd.blocks == []
  {
    var conf := map[SchemeKey(scheme) := "false"];
    ParseBooleanLiterals(false);
    forall i | 0 <= i < |ifds| ensures ifds[i].fd.blocks == [] {
      var u := ParseUri(files[i].path).value;
      KeysDiffer(scheme, u.authority);
      assert !PreloadBlockLocations(conf, files[i].path);
    }
  }
}
