/**
 * The transactional overlay: which listed files of an ACID table a reader
 * may see, and which of those a compaction has replaced.
 *
 * Every file of a transactional table sits in a top-level directory whose
 * name carries a write-id range: a base directory holds everything up to one
 * write id, a delta directory the writes of an interval of ids, and a
 * compaction writes either a new base or a compacted delta. The ranges are
 * given as a map from directory name to range. A file is
 *   - invisible when its directory has no range or its range holds a write id
 *     the reader's snapshot does not count as committed; it is dropped and not
 *     counted;
 *   - superseded when some visible compacted directory of the listing covers
 *     its directory's range; it is dropped and counted;
 *   - live otherwise.
 */
module Acid {
  import opened Wrappers
  import opened Storage

  /** The reader's snapshot: ids up to the high watermark are committed, except the invalid ones. */
  datatype ValidWriteIds = ValidWriteIds(highWatermark: nat, invalid: set<nat>)

  /** The write-id range a directory's name stands for. */
  datatype AcidDir =
    | Base(writeId: nat)
    | Delta(minWriteId: nat, maxWriteId: nat, compacted: bool)

  function Low(d: AcidDir): nat {
    if d.Base? then 0 else d.minWriteId
  }

  function High(d: AcidDir): nat {
    if d.Base? then d.writeId else d.maxWriteId
  }

  /** Written by a compaction: a base, or a delta that a compaction produced. */
  predicate Compacted(d: AcidDir) {
    d.Base? || d.compacted
  }

  /**
   * A base is visible when its write id is committed; a delta when every id
   * of its range is.
   */
  predicate Visible(w: ValidWriteIds, d: AcidDir) {
    match d
    case Base(id) => id <= w.highWatermark && id !in w.invalid
    case Delta(lo, hi, _) =>
      lo <= hi && hi <= w.highWatermark && forall id :: id in w.invalid ==> !(lo <= id <= hi)
  }

  /**
   * `c` replaces `d`: `c` is compacted and its range contains `d`'s, either
   * strictly or with `d` an uncompacted delta of the same range.
   */
  predicate Covers(c: AcidDir, d: AcidDir) {
    Compacted(c) && Low(c) <= Low(d) && High(d) <= High(c)
    && ((Low(c), High(c)) != (Low(d), High(d)) || !Compacted(d))
  }

  /** No directory covers itself. */
  lemma CoversIrreflexive(d: AcidDir)
    ensures !Covers(d, d)
  {
  }

  /** The range of the directory a file sits in, if that directory has one. */
  function RangeOf(dirs: map<string, AcidDir>, f: RawFile): (r: Option<AcidDir>)
    ensures r.Some? <==> |f.dirs| > 0 && f.dirs[0] in dirs
  {
    if |f.dirs| > 0 && f.dirs[0] in dirs then Some(dirs[f.dirs[0]]) else None
  }

  datatype Status = Live | Invisible | Superseded

  /** Some file of `files` sits in a visible directory that covers `d`. */
  predicate CoveredIn(w: ValidWriteIds, dirs: map<string, AcidDir>, files: seq<RawFile>, d: AcidDir) {
    exists j :: 0 <= j < |files| && CoversFile(w, dirs, files[j], d)
  }

  predicate CoversFile(w: ValidWriteIds, dirs: map<string, AcidDir>, f: RawFile, d: AcidDir) {
    RangeOf(dirs, f).Some? && Visible(w, RangeOf(dirs, f).value) && Covers(RangeOf(dirs, f).value, d)
  }

  /** What becomes of `f`, a file of the listing `files`. */
  function Classify(w: ValidWriteIds, dirs: map<string, AcidDir>, files: seq<RawFile>, f: RawFile): Status {
    match RangeOf(dirs, f)
    case None => Invisible
    case Some(d) =>
      if !Visible(w, d) then Invisible
      else if CoveredIn(w, dirs, files, d) then Superseded
      else Live
  }

  /** The files of `part` that `Classify` gives `s`, in order. */
  function WithStatus(w: ValidWriteIds, dirs: map<string, AcidDir>, files: seq<RawFile>,
                      part: seq<RawFile>, s: Status): seq<RawFile>
    decreases |part|
  {
    if part == [] then []
    else
      WithStatus(w, dirs, files, part[..|part| - 1], s)
      + (if Classify(w, dirs, files, part[|part| - 1]) == s then [part[|part| - 1]] else [])
  }

  /** The files a reader of the snapshot loads, in listing order. */
  function AcidKept(w: ValidWriteIds, dirs: map<string, AcidDir>, files: seq<RawFile>): seq<RawFile> {
    WithStatus(w, dirs, files, files, Live)
  }

  /** How many of the files a compaction replaced. */
  function AcidSuperseded(w: ValidWriteIds, dirs: map<string, AcidDir>, files: seq<RawFile>): nat {
    |WithStatus(w, dirs, files, files, Superseded)|
  }

  /** A file is selected exactly when it is in `part` with that status. */
  lemma {:induction false} WithStatusSpec(w: ValidWriteIds, dirs: map<string, AcidDir>, files: seq<RawFile>,
                                          part: seq<RawFile>, s: Status, f: RawFile)
    ensures f in WithStatus(w, dirs, files, part, s) <==> f in part && Classify(w, dirs, files, f) == s
    decreases |part|
  {
    if part != [] {
      var init := part[..|part| - 1];
      WithStatusSpec(w, dirs, files, init, s, f);
      assert part == init + [part[|part| - 1]];
    }
  }

  /** The three statuses split the listing: every file has exactly one. */
  lemma {:induction false} StatusesPartition(w: ValidWriteIds, dirs: map<string, AcidDir>, files: seq<RawFile>,
                                             part: seq<RawFile>)
    ensures |WithStatus(w, dirs, files, part, Live)| + |WithStatus(w, dirs, files, part, Superseded)|
      + |WithStatus(w, dirs, files, part, Invisible)| == |part|
    decreases |part|
  {
    if part != [] {
      StatusesPartition(w, dirs, files, part[..|part| - 1]);
    }
  }

  /** Loaded, superseded and invisible files add up to the listing. */
  lemma AcidCountsAddUp(w: ValidWriteIds, dirs: map<string, AcidDir>, files: seq<RawFile>)
    ensures |AcidKept(w, dirs, files)| + AcidSuperseded(w, dirs, files)
      + |WithStatus(w, dirs, files, files, Invisible)| == |files|
  {
    StatusesPartition(w, dirs, files, files);
  }

  /**
   * A loaded file sits in a visible directory that no visible compacted
   * directory of the listing covers.
   */
  lemma AcidKeptSpec(w: ValidWriteIds, dirs: map<string, AcidDir>, files: seq<RawFile>, f: RawFile)
    ensures f in AcidKept(w, dirs, files) <==>
      f in files && RangeOf(dirs, f).Some? && Visible(w, RangeOf(dirs, f).value)
      && !CoveredIn(w, dirs, files, RangeOf(dirs, f).value)
  {
    WithStatusSpec(w, dirs, files, files, Live, f);
  }

  /** A superseded file is visible and covered; a file outside any committed range is neither. */
  lemma AcidSupersededSpec(w: ValidWriteIds, dirs: map<string, AcidDir>, files: seq<RawFile>, f: RawFile)
    ensures f in WithStatus(w, dirs, files, files, Superseded) <==>
      f in files && RangeOf(dirs, f).Some? && Visible(w, RangeOf(dirs, f).value)
      && CoveredIn(w, dirs, files, RangeOf(dirs, f).value)
  {
    WithStatusSpec(w, dirs, files, files, Superseded, f);
  }

  /** When every file has one status, `WithStatus` selects all or none. */
  lemma {:induction false} WithStatusUniform(w: ValidWriteIds, dirs: map<string, AcidDir>, files: seq<RawFile>,
                                             part: seq<RawFile>, s: Status, t: Status)
    requires forall i :: 0 <= i < |part| ==> Classify(w, dirs, files, part[i]) == t
    ensures WithStatus(w, dirs, files, part, s) == if s == t then part else []
    decreases |part|
  {
    if part != [] {
      var init := part[..|part| - 1];
      WithStatusUniform(w, dirs, files, init, s, t);
      assert part == init + [part[|part| - 1]];
    }
  }

  lemma {:induction false} WithStatusAppend(w: ValidWriteIds, dirs: map<string, AcidDir>, files: seq<RawFile>,
                                            a: seq<RawFile>, b: seq<RawFile>, s: Status)
    ensures WithStatus(w, dirs, files, a + b, s) == WithStatus(w, dirs, files, a, s) + WithStatus(w, dirs, files, b, s)
    decreases |b|
  {
    if b == [] {
      assert a + b == a;
    } else {
      var init := b[..|b| - 1];
      assert a + b == (a + init) + [b[|b| - 1]];
      assert (a + b)[..|a + b| - 1] == a + init;
      WithStatusAppend(w, dirs, files, a, init, s);
    }
  }

  /**
   * A minor compaction: the files of one visible compacted directory `c`,
   * followed by K files in visible uncompacted deltas that `c` covers. Only
   * the compacted files are loaded, and the K files are all superseded.
   */
  lemma MinorCompaction(w: ValidWriteIds, dirs: map<string, AcidDir>, compacted: seq<RawFile>,
                        deltas: seq<RawFile>, c: string)
    requires c in dirs && Compacted(dirs[c]) && Visible(w, dirs[c]) && |compacted| > 0
    requires forall i :: 0 <= i < |compacted| ==> |compacted[i].dirs| > 0 && compacted[i].dirs[0] == c
    requires forall i :: 0 <= i < |deltas| ==>
      RangeOf(dirs, deltas[i]).Some? && !Compacted(RangeOf(dirs, deltas[i]).value)
      && Visible(w, RangeOf(dirs, deltas[i]).value) && Covers(dirs[c], RangeOf(dirs, deltas[i]).value)
    ensures AcidKept(w, dirs, compacted + deltas) == compacted
    ensures AcidSuperseded(w, dirs, compacted + deltas) == |deltas|
  {
    var files := compacted + deltas;
    forall i | 0 <= i < |compacted| ensures Classify(w, dirs, files, compacted[i]) == Live {
      assert RangeOf(dirs, compacted[i]) == Some(dirs[c]);
    }
    forall i | 0 <= i < |deltas| ensures Classify(w, dirs, files, deltas[i]) == Superseded {
      assert files[0] == compacted[0];
      assert CoversFile(w, dirs, files[0], RangeOf(dirs, deltas[i]).value);
    }
    WithStatusAppend(w, dirs, files, compacted, deltas, Live);
    WithStatusAppend(w, dirs, files, compacted, deltas, Superseded);
    WithStatusUniform(w, dirs, files, compacted, Live, Live);
    WithStatusUniform(w, dirs, files, deltas, Live, Superseded);
    WithStatusUniform(w, dirs, files, compacted, Superseded, Live);
    WithStatusUniform(w, dirs, files, deltas, Superseded, Superseded);
  }
}
