/**
 * File descriptors and the reuse-or-reload rule every loader shares.
 *
 * A descriptor records one file: its path relative to the table root, its
 * length, its modification time and its blocks. A block names the hosts
 * holding it by their ids in the shared host index, so a descriptor's blocks
 * mean something only together with that index. An old descriptor stands for
 * a file again when its path, length and modification time all match.
 */
module Descriptors {
  import opened Wrappers
  import opened Storage
  import opened ListMaps

  /** One block of a file, its replicas named by host-index ids. */
  datatype FileBlock = FileBlock(offset: nat, length: nat, hostIds: seq<nat>)

  datatype FileDescriptor = FileDescriptor(
    relativePath: string,
    fileLength: nat,
    modificationTime: int,
    blocks: seq<FileBlock>)

  // ---------------------------------------------------------------------------
  // Blocks and the host index
  // ---------------------------------------------------------------------------

  /** The ids name `hosts`, in order, in the host list `index`. */
  predicate HostsResolve(ids: seq<nat>, hosts: seq<Host>, index: seq<Host>) {
    |ids| == |hosts| && forall k :: 0 <= k < |ids| ==> ids[k] < |index| && index[ids[k]] == hosts[k]
  }

  /** The blocks stand for the storage client's block locations `locs` under `index`. */
  predicate BlocksResolve(blocks: seq<FileBlock>, locs: seq<BlockLocation>, index: seq<Host>) {
    |blocks| == |locs|
    && forall b :: 0 <= b < |blocks| ==>
      blocks[b].offset == locs[b].offset && blocks[b].length == locs[b].length
      && HostsResolve(blocks[b].hostIds, locs[b].hosts, index)
  }

  /** Every host id of `blocks` is an id of `index`. */
  predicate IdsIn(blocks: seq<FileBlock>, index: seq<Host>) {
    forall b, k :: 0 <= b < |blocks| && 0 <= k < |blocks[b].hostIds| ==> blocks[b].hostIds[k] < |index|
  }

  /** The block locations the blocks stand for: every id looked up in `index`. */
  function Locations(blocks: seq<FileBlock>, index: seq<Host>): (r: seq<BlockLocation>)
    requires IdsIn(blocks, index)
    ensures |r| == |blocks|
  {
    seq(|blocks|, b requires 0 <= b < |blocks| =>
      BlockLocation(blocks[b].offset, blocks[b].length,
        seq(|blocks[b].hostIds|, k requires 0 <= k < |blocks[b].hostIds| => index[blocks[b].hostIds[k]])))
  }

  /** Resolving is the same as decoding back to the storage client's locations. */
  lemma BlocksResolveDecodes(blocks: seq<FileBlock>, locs: seq<BlockLocation>, index: seq<Host>)
    ensures BlocksResolve(blocks, locs, index) <==> IdsIn(blocks, index) && Locations(blocks, index) == locs
  {
    if BlocksResolve(blocks, locs, index) {
      var r := Locations(blocks, index);
      forall b | 0 <= b < |blocks| ensures r[b] == locs[b] {
        assert r[b].hosts == locs[b].hosts;
      }
    }
    if IdsIn(blocks, index) && Locations(blocks, index) == locs {
      forall b | 0 <= b < |blocks|
        ensures HostsResolve(blocks[b].hostIds, locs[b].hosts, index)
      {
        assert Locations(blocks, index)[b] == locs[b];
        assert |locs[b].hosts| == |blocks[b].hostIds|;
        forall k | 0 <= k < |blocks[b].hostIds| ensures index[blocks[b].hostIds[k]] == locs[b].hosts[k] {
          assert Locations(blocks, index)[b].hosts[k] == locs[b].hosts[k];
        }
      }
    }
  }

  /** Ids only ever get added to the index, so what resolved keeps resolving. */
  lemma BlocksResolveGrows(blocks: seq<FileBlock>, locs: seq<BlockLocation>, index: seq<Host>, index': seq<Host>)
    requires BlocksResolve(blocks, locs, index) && index <= index'
    ensures BlocksResolve(blocks, locs, index')
  {
    forall b, k | 0 <= b < |blocks| && 0 <= k < |blocks[b].hostIds|
      ensures blocks[b].hostIds[k] < |index'| && index'[blocks[b].hostIds[k]] == locs[b].hosts[k]
    {
      assert HostsResolve(blocks[b].hostIds, locs[b].hosts, index);
    }
  }

  /** In an index without duplicates, hosts have exactly one encoding. */
  lemma HostsEncodingUnique(ids: seq<nat>, ids': seq<nat>, hosts: seq<Host>, index: seq<Host>)
    requires forall i, j :: 0 <= i < j < |index| ==> index[i] != index[j]
    requires HostsResolve(ids, hosts, index) && HostsResolve(ids', hosts, index)
    ensures ids == ids'
  {
  }

  /** The ids of `hosts`, interning the hosts the index has not seen. */
  method InternHosts(hosts: seq<Host>, hostIndex: ListMap<Host>) returns (ids: seq<nat>)
    requires hostIndex.Valid()
    modifies hostIndex
    ensures hostIndex.Valid() && old(hostIndex.list) <= hostIndex.list
    ensures HostsResolve(ids, hosts, hostIndex.list)
  {
    ids := [];
    for k := 0 to |hosts|
      invariant hostIndex.Valid() && old(hostIndex.list) <= hostIndex.list
      invariant HostsResolve(ids, hosts[..k], hostIndex.list)
    {
      ghost var before := hostIndex.list;
      var id := hostIndex.GetOrAddIndex(hosts[k]);
      assert before <= hostIndex.list;
      ids := ids + [id];
    }
  }

  /** The blocks of `locs`, their hosts interned into the index. */
  method InternBlocks(locs: seq<BlockLocation>, hostIndex: ListMap<Host>) returns (blocks: seq<FileBlock>)
    requires hostIndex.Valid()
    modifies hostIndex
    ensures hostIndex.Valid() && old(hostIndex.list) <= hostIndex.list
    ensures BlocksResolve(blocks, locs, hostIndex.list)
  {
    blocks := [];
    for b := 0 to |locs|
      invariant hostIndex.Valid() && old(hostIndex.list) <= hostIndex.list
      invariant BlocksResolve(blocks, locs[..b], hostIndex.list)
    {
      ghost var before := hostIndex.list;
      var ids := InternHosts(locs[b].hosts, hostIndex);
      BlocksResolveGrows(blocks, locs[..b], before, hostIndex.list);
      blocks := blocks + [FileBlock(locs[b].offset, locs[b].length, ids)];
    }
  }

  // ---------------------------------------------------------------------------
  // Fresh descriptors
  // ---------------------------------------------------------------------------

  /**
   * `fd` is a freshly built descriptor of the file at `relPath`: its path,
   * length and time are the file's, and its blocks are the file's block
   * locations when they are preloaded and empty otherwise.
   */
  predicate Describes(fd: FileDescriptor, relPath: string, size: nat, mtime: int,
                      locs: seq<BlockLocation>, index: seq<Host>, preload: bool) {
    fd.relativePath == relPath && fd.fileLength == size && fd.modificationTime == mtime
    && (if preload then BlocksResolve(fd.blocks, locs, index) else fd.blocks == [])
  }

  lemma DescribesGrows(fd: FileDescriptor, relPath: string, size: nat, mtime: int,
                       locs: seq<BlockLocation>, index: seq<Host>, index': seq<Host>, preload: bool)
    requires Describes(fd, relPath, size, mtime, locs, index, preload) && index <= index'
    ensures Describes(fd, relPath, size, mtime, locs, index', preload)
  {
    if preload {
      BlocksResolveGrows(fd.blocks, locs, index, index');
    }
  }

  /** A new descriptor for a file; block locations are resolved only when `preload` holds. */
  method MakeDescriptor(relPath: string, size: nat, mtime: int, locs: seq<BlockLocation>,
                        preload: bool, hostIndex: ListMap<Host>) returns (fd: FileDescriptor)
    requires hostIndex.Valid()
    modifies hostIndex
    ensures hostIndex.Valid() && old(hostIndex.list) <= hostIndex.list
    ensures !preload ==> hostIndex.list == old(hostIndex.list)
    ensures Describes(fd, relPath, size, mtime, locs, hostIndex.list, preload)
  {
    var blocks := [];
    if preload {
      blocks := InternBlocks(locs, hostIndex);
    }
    fd := FileDescriptor(relPath, size, mtime, blocks);
  }

  // ---------------------------------------------------------------------------
  // Reuse
  // ---------------------------------------------------------------------------

  /** The old descriptors by relative path; of two with one path the later wins. */
  function OldByPath(fds: seq<FileDescriptor>): map<string, FileDescriptor>
    decreases |fds|
  {
    if fds == [] then map[]
    else OldByPath(fds[..|fds| - 1])[fds[|fds| - 1].relativePath := fds[|fds| - 1]]
  }

  /** A path is a key exactly when some old descriptor has it. */
  lemma {:induction false} OldByPathKeys(fds: seq<FileDescriptor>, p: string)
    ensures p in OldByPath(fds) <==> exists i :: 0 <= i < |fds| && fds[i].relativePath == p
    decreases |fds|
  {
    if fds != [] {
      var init := fds[..|fds| - 1];
      OldByPathKeys(init, p);
      if p in OldByPath(init) {
        var i :| 0 <= i < |init| && init[i].relativePath == p;
        assert fds[i] == init[i];
      }
      if exists i :: 0 <= i < |fds| && fds[i].relativePath == p {
        var i :| 0 <= i < |fds| && fds[i].relativePath == p;
        if i < |init| {
          assert init[i].relativePath == p;
        }
      }
    }
  }

  /** A key maps to the last old descriptor with that path. */
  lemma {:induction false} OldByPathLast(fds: seq<FileDescriptor>, p: string)
    requires p in OldByPath(fds)
    ensures exists i :: (0 <= i < |fds| && OldByPath(fds)[p] == fds[i]
      && fds[i].relativePath == p
      && forall j :: i < j < |fds| ==> fds[j].relativePath != p)
    decreases |fds|
  {
    var n := |fds| - 1;
    var init := fds[..n];
    if p == fds[n].relativePath {
      assert OldByPath(fds)[p] == fds[n];
    } else {
      OldByPathLast(init, p);
      var i :| 0 <= i < |init| && OldByPath(init)[p] == init[i] && init[i].relativePath == p
        && forall j :: i < j < |init| ==> init[j].relativePath != p;
      assert fds[i] == init[i];
      forall j | i < j < |fds| ensures fds[j].relativePath != p {
        if j < n {
          assert fds[j] == init[j];
        }
      }
    }
  }

  /** Without repeated paths every old descriptor is found under its own path. */
  lemma OldByPathDistinct(fds: seq<FileDescriptor>, i: nat)
    requires forall a, b :: 0 <= a < b < |fds| ==> fds[a].relativePath != fds[b].relativePath
    requires i < |fds|
    ensures fds[i].relativePath in OldByPath(fds) && OldByPath(fds)[fds[i].relativePath] == fds[i]
  {
    OldByPathLast(fds, fds[i].relativePath);
    var j :| 0 <= j < |fds| && OldByPath(fds)[fds[i].relativePath] == fds[j]
      && fds[j].relativePath == fds[i].relativePath
      && forall k :: j < k < |fds| ==> fds[k].relativePath != fds[i].relativePath;
  }

  /** The old descriptor to reuse for a file, if there is one that still matches it. */
  function Reusable(byPath: map<string, FileDescriptor>, relPath: string, size: nat, mtime: int): (r: Option<FileDescriptor>)
    ensures r.Some? <==> relPath in byPath && byPath[relPath].fileLength == size && byPath[relPath].modificationTime == mtime
    ensures r.Some? ==> r.value == byPath[relPath]
  {
    if relPath in byPath && byPath[relPath].fileLength == size && byPath[relPath].modificationTime == mtime then Some(byPath[relPath])
    else None
  }

  /**
   * The descriptor a load produces for a file: the matching old one, or a
   * fresh one.
   */
  predicate Reconciled(fd: FileDescriptor, byPath: map<string, FileDescriptor>, relPath: string, size: nat,
                       mtime: int, locs: seq<BlockLocation>, index: seq<Host>, preload: bool) {
    match Reusable(byPath, relPath, size, mtime)
    case Some(prev) => fd == prev
    case None => Describes(fd, relPath, size, mtime, locs, index, preload)
  }

  /** A reconciled descriptor carries the file's path, length and time, whichever way it came. */
  lemma ReconciledMatches(fd: FileDescriptor, fds: seq<FileDescriptor>, relPath: string, size: nat,
                          mtime: int, locs: seq<BlockLocation>, index: seq<Host>, preload: bool)
    requires Reconciled(fd, OldByPath(fds), relPath, size, mtime, locs, index, preload)
    ensures fd.relativePath == relPath && fd.fileLength == size && fd.modificationTime == mtime
  {
    if Reusable(OldByPath(fds), relPath, size, mtime).Some? {
      OldByPathLast(fds, relPath);
    }
  }
}
