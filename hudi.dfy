/**
 * The versioned-table overlay for Hudi tables: of the physical versions of
 * one logical file, only the latest is loaded.
 *
 * A Hudi base file is named `<fileId>_<writeToken>_<commitTime>.<extension>`.
 * The versions of one logical file share the directory and the file id, and
 * differ in the commit time, an instant written as a fixed-width digit string,
 * so that later instants compare greater as strings. Of every group the file
 * with the greatest commit time is kept (the first of them on a tie); the
 * other versions are dropped before descriptors are built and are counted
 * nowhere.
 */
module Hudi {
  import opened Wrappers
  import opened Storage
  import opened Paths

  // ---------------------------------------------------------------------------
  // Commit times are compared as strings
  // ---------------------------------------------------------------------------

  /** Java's `String.compareTo(a, b) < 0`: the first differing character decides, else the shorter is less. */
  predicate LexLess(a: string, b: string)
    decreases |a|
  {
    if a == [] then b != []
    else if b == [] then false
    else a[0] < b[0] || (a[0] == b[0] && LexLess(a[1..], b[1..]))
  }

  lemma {:induction false} LexLessIrreflexive(a: string)
    ensures !LexLess(a, a)
    decreases |a|
  {
    if a != [] {
      LexLessIrreflexive(a[1..]);
    }
  }

  lemma {:induction false} LexLessTransitive(a: string, b: string, c: string)
    requires LexLess(a, b) && LexLess(b, c)
    ensures LexLess(a, c)
    decreases |a|
  {
    if a != [] && a[0] == b[0] && b[0] == c[0] {
      LexLessTransitive(a[1..], b[1..], c[1..]);
    }
  }

  lemma {:induction false} LexLessTotal(a: string, b: string)
    ensures a == b || LexLess(a, b) || LexLess(b, a)
    decreases |a|
  {
    if a != [] && b != [] && a[0] == b[0] {
      LexLessTotal(a[1..], b[1..]);
      if a[1..] == b[1..] {
        assert a == [a[0]] + a[1..] && b == [b[0]] + b[1..];
      }
    }
  }

  lemma LexLessAsymmetric(a: string, b: string)
    requires LexLess(a, b)
    ensures !LexLess(b, a)
  {
    if LexLess(b, a) {
      LexLessTransitive(a, b, a);
      LexLessIrreflexive(a);
    }
  }

  // ---------------------------------------------------------------------------
  // File names
  // ---------------------------------------------------------------------------

  /** The position of the last `c` in `s`, if any. */
  function LastIndexOf(s: string, c: char): (r: Option<nat>)
    ensures r.Some? ==> r.value < |s| && s[r.value] == c
    ensures r.Some? ==> forall k :: r.value < k < |s| ==> s[k] != c
    ensures r.None? ==> forall k :: 0 <= k < |s| ==> s[k] != c
    decreases |s|
  {
    if s == [] then None
    else if s[|s| - 1] == c then Some(|s| - 1)
    else LastIndexOf(s[..|s| - 1], c)
  }

  /** The logical file a name belongs to: the name up to its first '_'. */
  function FileId(name: string): string {
    match IndexOf(name, '_', 0)
    case None => name
    case Some(i) => name[..i]
  }

  /** The commit time in a name: after its last '_', up to the next '.'. */
  function CommitTime(name: string): string {
    match LastIndexOf(name, '_')
    case None => ""
    case Some(i) =>
      match IndexOf(name[i + 1..], '.', 0)
      case None => name[i + 1..]
      case Some(j) => name[i + 1..][..j]
  }

  /** The name of a base file. */
  function BaseFileName(fileId: string, writeToken: string, commitTime: string, extension: string): string {
    fileId + "_" + writeToken + "_" + commitTime + "." + extension
  }

  /** The file id reads back out of a base file's name. */
  lemma BaseFileNameId(fileId: string, writeToken: string, commitTime: string, extension: string)
    requires '_' !in fileId
    ensures FileId(BaseFileName(fileId, writeToken, commitTime, extension)) == fileId
  {
    var tail := writeToken + "_" + commitTime + "." + extension;
    var name := BaseFileName(fileId, writeToken, commitTime, extension);
    assert name == fileId + ("_" + tail);
    FirstAt(fileId, "_" + tail, '_');
  }

  /** The first `c` of `a + b` is `b`'s first character when `a` holds none. */
  lemma FirstAt(a: string, b: string, c: char)
    requires c !in a && |b| > 0 && b[0] == c
    ensures IndexOf(a + b, c, 0) == Some(|a|) && (a + b)[..|a|] == a
  {
    var s := a + b;
    assert s[|a|] == c;
    assert forall k :: 0 <= k < |a| ==> s[k] == a[k];
  }

  /** The commit time reads back out of a base file's name. */
  lemma BaseFileNameCommit(fileId: string, writeToken: string, commitTime: string, extension: string)
    requires '_' !in commitTime && '.' !in commitTime && '_' !in extension
    ensures CommitTime(BaseFileName(fileId, writeToken, commitTime, extension)) == commitTime
  {
    var name := BaseFileName(fileId, writeToken, commitTime, extension);
    var head := fileId + "_" + writeToken + "_";
    var after := commitTime + "." + extension;
    assert name == head + after;
    NoUnderscore(commitTime, extension);
    NoneAfter(head, after, '_');
    LastUnder(name, '_', |head| - 1);
    assert name[|head|..] == after;
    FirstAt(commitTime, "." + extension, '.');
    assert after == commitTime + ("." + extension);
  }

  /** A `c` ending `a` is the last one of `a + b` when `b` holds none. */
  lemma NoneAfter(a: string, b: string, c: char)
    requires c !in b && |a| > 0 && a[|a| - 1] == c
    ensures forall k :: |a| - 1 < k < |a + b| ==> (a + b)[k] != c
  {
    forall k | |a| - 1 < k < |a + b| ensures (a + b)[k] != c {
      assert (a + b)[k] == b[k - |a|];
    }
  }

  lemma NoUnderscore(commitTime: string, extension: string)
    requires '_' !in commitTime && '_' !in extension
    ensures '_' !in commitTime + "." + extension
  {
  }

  /** The last occurrence is the one after which none follows. */
  lemma {:induction false} LastUnder(s: string, c: char, i: nat)
    requires i < |s| && s[i] == c && forall k :: i < k < |s| ==> s[k] != c
    ensures LastIndexOf(s, c) == Some(i)
    decreases |s|
  {
    if s[|s| - 1] != c {
      LastUnder(s[..|s| - 1], c, i);
    }
  }

  // ---------------------------------------------------------------------------
  // Keeping the latest version
  // ---------------------------------------------------------------------------

  /** The versions of one logical file share their directories and their file id. */
  function Group(f: RawFile): (seq<string>, string) {
    (f.dirs, FileId(f.name))
  }

  function Commit(f: RawFile): string {
    CommitTime(f.name)
  }

  /** Version `i` wins over version `j`: a later commit, or the same commit and listed first. */
  predicate Beats(files: seq<RawFile>, i: nat, j: nat)
    requires i < |files| && j < |files|
  {
    LexLess(Commit(files[j]), Commit(files[i])) || (Commit(files[i]) == Commit(files[j]) && i < j)
  }

  /** File `i` beats every other version of its logical file. */
  predicate IsLatest(files: seq<RawFile>, i: nat)
    requires i < |files|
  {
    forall j :: 0 <= j < |files| && j != i && Group(files[j]) == Group(files[i]) ==> Beats(files, i, j)
  }

  /** Whether each listed file is the latest of its logical file. */
  function LatestFlags(files: seq<RawFile>): (r: seq<bool>)
    ensures |r| == |files|
    ensures forall i :: 0 <= i < |files| ==> r[i] == IsLatest(files, i)
  {
    seq(|files|, i requires 0 <= i < |files| => IsLatest(files, i))
  }

  /** The files of `files[..n]` whose flag is set, in order. */
  function Kept(files: seq<RawFile>, keep: seq<bool>, n: nat): (r: seq<RawFile>)
    requires n <= |files| == |keep|
    ensures |r| <= n
  {
    if n == 0 then []
    else Kept(files, keep, n - 1) + (if keep[n - 1] then [files[n - 1]] else [])
  }

  /** The listing reduced to the latest version of every logical file, in listing order. */
  function SelectLatest(files: seq<RawFile>): seq<RawFile> {
    Kept(files, LatestFlags(files), |files|)
  }

  /** Where in the listing the `a`-th kept file of `files[..n]` sits. */
  ghost function PositionOf(files: seq<RawFile>, keep: seq<bool>, n: nat, a: nat): nat
    requires n <= |files| == |keep| && a < |Kept(files, keep, n)|
    decreases n
  {
    if a < |Kept(files, keep, n - 1)| then PositionOf(files, keep, n - 1, a) else n - 1
  }

  lemma {:induction false} PositionOfSpec(files: seq<RawFile>, keep: seq<bool>, n: nat, a: nat)
    requires n <= |files| == |keep| && a < |Kept(files, keep, n)|
    ensures PositionOf(files, keep, n, a) < n && keep[PositionOf(files, keep, n, a)]
    ensures Kept(files, keep, n)[a] == files[PositionOf(files, keep, n, a)]
    decreases n
  {
    if a < |Kept(files, keep, n - 1)| {
      PositionOfSpec(files, keep, n - 1, a);
    }
  }

  /** Kept files keep their listing order. */
  lemma {:induction false} PositionOfIncreasing(files: seq<RawFile>, keep: seq<bool>, n: nat, a: nat, b: nat)
    requires n <= |files| == |keep| && a < b < |Kept(files, keep, n)|
    ensures PositionOf(files, keep, n, a) < PositionOf(files, keep, n, b)
    decreases n
  {
    if b < |Kept(files, keep, n - 1)| {
      PositionOfIncreasing(files, keep, n - 1, a, b);
    } else {
      PositionOfSpec(files, keep, n - 1, a);
    }
  }

  /** A flagged file is kept. */
  lemma {:induction false} FlaggedIsKept(files: seq<RawFile>, keep: seq<bool>, n: nat, k: nat)
    requires n <= |files| == |keep| && k < n && keep[k]
    ensures exists a :: 0 <= a < |Kept(files, keep, n)| && Kept(files, keep, n)[a] == files[k]
    decreases n
  {
    if k < n - 1 {
      FlaggedIsKept(files, keep, n - 1, k);
      var a :| 0 <= a < |Kept(files, keep, n - 1)| && Kept(files, keep, n - 1)[a] == files[k];
      assert Kept(files, keep, n)[a] == files[k];
    } else {
      assert Kept(files, keep, n)[|Kept(files, keep, n - 1)|] == files[k];
    }
  }

  /** At most one version of a logical file is the latest. */
  lemma LatestUnique(files: seq<RawFile>, i: nat, j: nat)
    requires i < |files| && j < |files| && IsLatest(files, i) && IsLatest(files, j)
    requires Group(files[i]) == Group(files[j])
    ensures i == j
  {
    if i != j {
      assert Beats(files, i, j) && Beats(files, j, i);
      LexLessIrreflexive(Commit(files[i]));
      if LexLess(Commit(files[j]), Commit(files[i])) {
        LexLessAsymmetric(Commit(files[j]), Commit(files[i]));
      }
    }
  }

  /**
   * Among the versions of `files[i]`'s group in `files[..n]`, one beats all
   * the others there, and at least ties with `files[i]` when `i < n`.
   */
  lemma {:induction false} BestBelow(files: seq<RawFile>, g: (seq<string>, string), n: nat) returns (k: nat)
    requires 0 < n <= |files|
    requires exists i :: 0 <= i < n && Group(files[i]) == g
    ensures k < n && Group(files[k]) == g
    ensures forall j :: 0 <= j < n && j != k && Group(files[j]) == g ==> Beats(files, k, j)
    decreases n
  {
    if exists i :: 0 <= i < n - 1 && Group(files[i]) == g {
      k := BestBelow(files, g, n - 1);
      if Group(files[n - 1]) == g && !Beats(files, k, n - 1) {
        var prev := k;
        k := n - 1;
        LexLessTotal(Commit(files[prev]), Commit(files[n - 1]));
        forall j | 0 <= j < n && j != k && Group(files[j]) == g ensures Beats(files, k, j) {
          if j != prev {
            assert Beats(files, prev, j);
            if LexLess(Commit(files[j]), Commit(files[prev])) {
              LexLessTransitive(Commit(files[j]), Commit(files[prev]), Commit(files[n - 1]));
            }
          }
        }
      }
    } else {
      k := n - 1;
    }
  }

  /** Every listed file has a latest version in its logical file, and that one is at least as recent. */
  lemma LatestExists(files: seq<RawFile>, i: nat) returns (k: nat)
    requires i < |files|
    ensures k < |files| && IsLatest(files, k) && Group(files[k]) == Group(files[i])
    ensures !LexLess(Commit(files[k]), Commit(files[i]))
  {
    k := BestBelow(files, Group(files[i]), |files|);
    LexLessIrreflexive(Commit(files[k]));
    if k != i {
      assert Beats(files, k, i);
      if LexLess(Commit(files[i]), Commit(files[k])) {
        LexLessAsymmetric(Commit(files[i]), Commit(files[k]));
      }
    }
  }

  /** Every kept file is a listed file that beats the other versions of its logical file. */
  lemma SelectLatestSound(files: seq<RawFile>, a: nat)
    requires a < |SelectLatest(files)|
    ensures exists i :: 0 <= i < |files| && IsLatest(files, i) && SelectLatest(files)[a] == files[i]
  {
    PositionOfSpec(files, LatestFlags(files), |files|, a);
  }

  /** Every listed file's logical file keeps a version at least as recent as it. */
  lemma SelectLatestComplete(files: seq<RawFile>, i: nat)
    requires i < |files|
    ensures exists a :: (0 <= a < |SelectLatest(files)| && Group(SelectLatest(files)[a]) == Group(files[i])
      && !LexLess(Commit(SelectLatest(files)[a]), Commit(files[i])))
  {
    var k := LatestExists(files, i);
    FlaggedIsKept(files, LatestFlags(files), |files|, k);
    var a :| 0 <= a < |SelectLatest(files)| && SelectLatest(files)[a] == files[k];
    assert Group(SelectLatest(files)[a]) == Group(files[i]);
  }

  /** No two kept files are versions of one logical file. */
  lemma SelectLatestDistinct(files: seq<RawFile>, a: nat, b: nat)
    requires a < b < |SelectLatest(files)|
    ensures Group(SelectLatest(files)[a]) != Group(SelectLatest(files)[b])
  {
    var n, keep := |files|, LatestFlags(files);
    PositionOfSpec(files, keep, n, a);
    PositionOfSpec(files, keep, n, b);
    PositionOfIncreasing(files, keep, n, a, b);
    if Group(SelectLatest(files)[a]) == Group(SelectLatest(files)[b]) {
      LatestUnique(files, PositionOf(files, keep, n, a), PositionOf(files, keep, n, b));
    }
  }
}
