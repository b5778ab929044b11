# File-metadata loading and OpenTelemetry trace checks, in Dafny

This project models two parts of Apache Impala and proves properties of the models.

**The catalog's file-metadata loaders.** `FileMetadataLoader` walks a table
or partition directory. It skips hidden directories and passes the listing
through two optional overlays:

- a transactional (ACID) overlay that hides uncommitted files and drops the
  files a compaction superseded;
- a Hudi overlay that keeps only the latest version of each file.

It then reconciles every remaining file with the descriptors of the previous
load. An unchanged file (same relative path, length and modification time)
keeps its old descriptor. Any other file gets a fresh descriptor, whose block
locations are interned in the shared host index when the
`impala.preload-block-locations-for-scheduling` setting allows it. The
loader counts loaded, skipped and superseded files in its `LoadStats`.

`IcebergFileMetadataLoader` does the same for the content files a manifest
reader supplies:

- each file is keyed by its path relative to the table location;
- the manifest's content kind, partition and sequence number are attached
  to every descriptor, reused or not;
- when data files must lie in the table location, a file outside it fails
  the load.

Both loader classes keep their inputs in `const` fields. `Load` fills the
`loadedFds`/`loadedIcebergFds` and `stats` fields in place and extends the
`ListMap` host index. Each `Load` is proved against specification functions
on the inputs: `Candidates`, `LoadedAs`, `ExpectedStats`, `FirstOutside` and
`CountIcebergFresh`. The lemmas beside them state what the test suite pins
down:

- a full refresh reuses everything;
- touching one file reloads exactly one;
- a partial refresh reloads the rest;
- no block locations when preloading is off;
- nothing is loaded from a missing directory;
- hidden directories are ignored;
- the ACID counts after a minor compaction.

**The OpenTelemetry support.** `should_otel_trace_query` decides whether a
statement is traced: after leading whitespace, `--` line comments and
`/* */` block comments, it must start with a traced keyword. Beeswax
sessions are traced only when a flag is set. `otel_tls_enabled` is the
"https" check on the collector URL.

The end-to-end trace helper in Python is modelled as well:

- attribute values and their reported types;
- the span record with its attribute and event dictionaries;
- grouping spans into traces by trace id and query id;
- the lookup checks after grouping;
- the per-stage error chain of `assert_trace`;
- the common span assertions: kind, parent, name, logged ids, flags,
  attribute count, the error message, name, running and status
  attributes, and the expected events;
- `__assert_attr` and `__find_span`.

The loader implementation files are not part of this model. Their behaviour
is taken from the assertions of `FileMetadataLoaderTest.java`, and the
contracts follow those. Where the tests leave a choice open, the model makes
the choice stated below:

- The Iceberg key of a file outside the table location is its absolute
  path. The multiple-storage-locations test
  (`FileMetadataLoaderTest.java:287-315`) checks only the load and skip
  counts, so it does not fix the key of such a file. Files with distinct paths
  keep distinct keys when every file outside the location carries a URI
  scheme and no path relative to the location holds a ':' (KeysDistinct).
  Without the scheme condition a file outside can take the key of a file
  inside (SchemelessKeysCollide). The refresh lemmas assume distinct keys.
- An Iceberg descriptor is reused when its key is found and the file length
  is unchanged. The manifest carries no modification time, and Iceberg data
  files are immutable.
- The authority property
  (`impala.preload-block-locations-for-scheduling.authority.<authority>`)
  takes precedence over the scheme property
  (`impala.preload-block-locations-for-scheduling.scheme.<scheme>`) when
  both are set and read as booleans. The tests set the authority key
  (`FileMetadataLoaderTest.java:91-95`) and the scheme key (lines 182-185)
  only one at a time, so Impala's sources here do not say which wins.
- The `should_otel_trace_query` implementation file is not part of this
  model either. Its behaviour is fixed by the vectors in `otel-test.cc`.

## Model

| member | source | states |
|---|---|---|
| Paths.SplitJoin | fe/src/test/java/org/apache/impala/catalog/FileMetadataLoaderTest.java:59-65 | splitting a joined relative path at '/' gives back its components |
| Paths.JoinInjective | fe/src/test/java/org/apache/impala/catalog/FileMetadataLoaderTest.java:59-65 | two component lists join to the same relative path only when they are equal |
| Paths.TrimSlashes | fe/src/test/java/org/apache/impala/catalog/FileMetadataLoaderTest.java:92-99 | the trimmed table location (the test passes one ending in '/') is a prefix of it that does not end in '/', and everything cut from its end is '/' |
| Paths.Relativize | fe/src/test/java/org/apache/impala/catalog/FileMetadataLoaderTest.java:155-160 | a path under the location, relativized, resolves back to the same absolute path |
| Paths.RelativizeResolve | fe/src/test/java/org/apache/impala/catalog/FileMetadataLoaderTest.java:155-160 | resolving a relative path against the location lands under it, and relativizing gives the relative path back |
| ListMaps.ListMap.constructor | fe/src/test/java/org/apache/impala/catalog/FileMetadataLoaderTest.java:321 | a new host index is empty and valid |
| ListMaps.ListMap.GetOrAddIndex | fe/src/test/java/org/apache/impala/catalog/FileMetadataLoaderTest.java:97-100 | returns the id of the host; a known host keeps its id and leaves the list unchanged, a new one is appended, and the index stays a bijection |
| ListMaps.ListMap.GetIndex | fe/src/test/java/org/apache/impala/catalog/FileMetadataLoaderTest.java:97-100 | finds a host exactly when it is in the list, at its position |
| ListMaps.ListMap.GetEntry | fe/src/test/java/org/apache/impala/catalog/FileMetadataLoaderTest.java:97-100 | the host at a valid id is the one the index maps back to that id |
| ListMaps.ListMap.Distinct | fe/src/test/java/org/apache/impala/catalog/FileMetadataLoaderTest.java:97-100 | a valid host index holds no host twice |
| BlockConfig.ParseUriSound | fe/src/test/java/org/apache/impala/catalog/FileMetadataLoaderTest.java:92-98 | a parsed location is well formed and renders back to the same text |
| BlockConfig.ParseRenderUri | fe/src/test/java/org/apache/impala/catalog/FileMetadataLoaderTest.java:92-98 | rendering a well-formed URI and parsing it gives the URI back |
| BlockConfig.GetBooleanReads | fe/src/test/java/org/apache/impala/catalog/FileMetadataLoaderTest.java:91-95 | a setting that parses as a boolean is read as that value; a missing or unparsable one gives the default |
| BlockConfig.ParseBooleanLiterals | fe/src/test/java/org/apache/impala/catalog/FileMetadataLoaderTest.java:91-95 | "true" and "false" parse as the booleans they name |
| BlockConfig.AuthorityDecides | fe/src/test/java/org/apache/impala/catalog/FileMetadataLoaderTest.java:91-95 | a boolean authority setting decides preloading for its location, whatever the scheme setting says |
| BlockConfig.SchemeDecides | fe/src/test/java/org/apache/impala/catalog/FileMetadataLoaderTest.java:182-185 | without an authority setting, a boolean scheme setting decides preloading |
| BlockConfig.PreloadByDefault | fe/src/test/java/org/apache/impala/catalog/FileMetadataLoaderTest.java:50-58 | with neither setting present as a boolean, block locations are preloaded |
| BlockConfig.AuthorityFalseDisables | fe/src/test/java/org/apache/impala/catalog/FileMetadataLoaderTest.java:91-95 | the authority key set to "false" turns preloading off for every location of that authority |
| BlockConfig.SchemeFalseDisables | fe/src/test/java/org/apache/impala/catalog/FileMetadataLoaderTest.java:182-185 | the scheme key set to "false" turns preloading off for every location of that scheme |
| BlockConfig.KeysDiffer | fe/src/test/java/org/apache/impala/catalog/FileMetadataLoaderTest.java:182-185 | an authority key and a scheme key are never the same setting |
| Storage.ListFilesSpec | fe/src/test/java/org/apache/impala/catalog/FileMetadataLoaderTest.java:382-406 | a file is listed exactly when it exists under the root, its name and every directory on its path are not hidden, and it lies directly in the root when the walk is not recursive |
| Storage.WalkSpec | fe/src/test/java/org/apache/impala/catalog/FileMetadataLoaderTest.java:382-406 | the walk of a directory lists exactly the files it reaches through non-hidden directories |
| Storage.ListedNotHidden | fe/src/test/java/org/apache/impala/catalog/FileMetadataLoaderTest.java:382-406 | no listed file lies in a hidden directory or has a hidden name |
| Storage.HiddenEntryIgnored | fe/src/test/java/org/apache/impala/catalog/FileMetadataLoaderTest.java:394-401 | adding a hidden directory, with anything inside it, leaves the walk unchanged |
| Storage.WalkAppend | fe/src/test/java/org/apache/impala/catalog/FileMetadataLoaderTest.java:382-406 | walking two runs of entries lists the first run's files, then the second's |
| Storage.ListedPathsDistinct | fe/src/test/java/org/apache/impala/catalog/FileMetadataLoaderTest.java:59-65 | in a directory tree without duplicate names, no two listed files share a relative path |
| Descriptors.Locations | fe/src/test/java/org/apache/impala/catalog/FileMetadataLoaderTest.java:97-104 | one resolved block location per stored block |
| Descriptors.BlocksResolveDecodes | fe/src/test/java/org/apache/impala/catalog/FileMetadataLoaderTest.java:97-104 | stored host ids resolve to given block locations exactly when they are in the index and decode to them |
| Descriptors.BlocksResolveGrows | fe/src/test/java/org/apache/impala/catalog/FileMetadataLoaderTest.java:67-73 | host ids stay valid when the shared index grows |
| Descriptors.HostsEncodingUnique | fe/src/test/java/org/apache/impala/catalog/FileMetadataLoaderTest.java:97-104 | over an index without repeats, the host ids that encode a host list are unique |
| Descriptors.InternHosts | fe/src/test/java/org/apache/impala/catalog/FileMetadataLoaderTest.java:97-104 | interning keeps the index valid, only appends to it, and the returned ids resolve to the given hosts |
| Descriptors.InternBlocks | fe/src/test/java/org/apache/impala/catalog/FileMetadataLoaderTest.java:97-104 | interning every block keeps the index valid, only appends to it, and the stored blocks resolve to the given locations |
| Descriptors.MakeDescriptor | fe/src/test/java/org/apache/impala/catalog/FileMetadataLoaderTest.java:97-104 | a fresh descriptor carries the path, length and time; its blocks resolve to the locations when preloading, else it has none and the index is untouched |
| Descriptors.DescribesGrows | fe/src/test/java/org/apache/impala/catalog/FileMetadataLoaderTest.java:67-73 | a descriptor built against the index still describes its file after the index grows |
| Descriptors.OldByPathKeys | fe/src/test/java/org/apache/impala/catalog/FileMetadataLoaderTest.java:67-73 | a path is a key of the old-descriptor map exactly when some old descriptor has it |
| Descriptors.OldByPathLast | fe/src/test/java/org/apache/impala/catalog/FileMetadataLoaderTest.java:67-73 | a key maps to the last old descriptor with that path |
| Descriptors.OldByPathDistinct | fe/src/test/java/org/apache/impala/catalog/FileMetadataLoaderTest.java:67-73 | without repeated paths, every old descriptor is found under its own path |
| Descriptors.ReconciledMatches | fe/src/test/java/org/apache/impala/catalog/FileMetadataLoaderTest.java:59-65 | a reconciled descriptor, reused or fresh, carries the file's path, length and time |
| Acid.CoversIrreflexive | fe/src/test/java/org/apache/impala/catalog/FileMetadataLoaderTest.java:346-365 | no directory supersedes itself |
| Acid.RangeOf | fe/src/test/java/org/apache/impala/catalog/FileMetadataLoaderTest.java:346-365 | a file has a write-id range exactly when its top-level directory has one |
| Acid.WithStatusSpec | fe/src/test/java/org/apache/impala/catalog/FileMetadataLoaderTest.java:346-365 | a file is selected for a status exactly when it is in the part and is classified so |
| Acid.StatusesPartition | fe/src/test/java/org/apache/impala/catalog/FileMetadataLoaderTest.java:346-365 | live, superseded and invisible files together are all the files of a part |
| Acid.AcidCountsAddUp | fe/src/test/java/org/apache/impala/catalog/FileMetadataLoaderTest.java:346-365 | loaded, superseded and invisible files add up to the listing |
| Acid.AcidKeptSpec | fe/src/test/java/org/apache/impala/catalog/FileMetadataLoaderTest.java:346-365 | a file is kept exactly when its directory is visible to the snapshot and no visible compacted directory covers it |
| Acid.AcidSupersededSpec | fe/src/test/java/org/apache/impala/catalog/FileMetadataLoaderTest.java:346-365 | a file is superseded exactly when it is visible and a visible compacted directory covers it |
| Acid.WithStatusUniform | fe/src/test/java/org/apache/impala/catalog/FileMetadataLoaderTest.java:346-365 | when all files share one status, selecting a status keeps all or none |
| Acid.WithStatusAppend | fe/src/test/java/org/apache/impala/catalog/FileMetadataLoaderTest.java:346-365 | selecting from two runs is selecting from each, in order |
| Acid.MinorCompaction | fe/src/test/java/org/apache/impala/catalog/FileMetadataLoaderTest.java:346-365 | compacted files plus K deltas they cover: only the compacted files are kept and K are superseded |
| Hudi.LexLessTransitive | fe/src/test/java/org/apache/impala/catalog/FileMetadataLoaderTest.java:113-142 | commit times compare as a strict order: transitive |
| Hudi.LexLessTotal | fe/src/test/java/org/apache/impala/catalog/FileMetadataLoaderTest.java:113-142 | any two distinct commit times compare one way or the other |
| Hudi.LastIndexOf | fe/src/test/java/org/apache/impala/catalog/FileMetadataLoaderTest.java:113-142 | finds the last occurrence of a character, or reports there is none |
| Hudi.BaseFileNameId | fe/src/test/java/org/apache/impala/catalog/FileMetadataLoaderTest.java:130-141 | the file id is read back from a base file name |
| Hudi.BaseFileNameCommit | fe/src/test/java/org/apache/impala/catalog/FileMetadataLoaderTest.java:130-141 | the commit time is read back from a base file name |
| Hudi.LatestUnique | fe/src/test/java/org/apache/impala/catalog/FileMetadataLoaderTest.java:113-142 | a group has at most one latest version |
| Hudi.LatestExists | fe/src/test/java/org/apache/impala/catalog/FileMetadataLoaderTest.java:113-142 | every group has a latest version, and its commit is not older than any other of the group |
| Hudi.SelectLatestSound | fe/src/test/java/org/apache/impala/catalog/FileMetadataLoaderTest.java:113-142 | every file kept is the latest version of its group |
| Hudi.SelectLatestComplete | fe/src/test/java/org/apache/impala/catalog/FileMetadataLoaderTest.java:113-142 | every group of the listing keeps one file |
| Hudi.SelectLatestDistinct | fe/src/test/java/org/apache/impala/catalog/FileMetadataLoaderTest.java:113-142 | no two kept files belong to the same group |
| FileLoader.CountFresh | fe/src/test/java/org/apache/impala/catalog/FileMetadataLoaderTest.java:50-85 | at most as many fresh files as candidates |
| FileLoader.FileMetadataLoader.constructor | fe/src/test/java/org/apache/impala/catalog/FileMetadataLoaderTest.java:53-56 | stores its inputs and starts with no descriptors and zero counts |
| FileLoader.FileMetadataLoader.Load | fe/src/test/java/org/apache/impala/catalog/FileMetadataLoaderTest.java:50-85 | one reconciled descriptor per candidate file, in listing order; the stats count fresh, reused and superseded files; the host index only grows |
| FileLoader.LoadedAsMatches | fe/src/test/java/org/apache/impala/catalog/FileMetadataLoaderTest.java:59-65 | every loaded descriptor carries its file's relative path, length and time |
| FileLoader.FirstLoadCountsAll | fe/src/test/java/org/apache/impala/catalog/FileMetadataLoaderTest.java:56-58 | without old descriptors every candidate is loaded |
| FileLoader.OwnDescriptorsReusable | fe/src/test/java/org/apache/impala/catalog/FileMetadataLoaderTest.java:67-73 | a file's descriptor of the last load is reusable for the unchanged file |
| FileLoader.RefreshUnchanged | fe/src/test/java/org/apache/impala/catalog/FileMetadataLoaderTest.java:67-73 | refreshing unchanged files with the last descriptors loads 0, skips all, and gives the same descriptors |
| FileLoader.RefreshAfterTouch | fe/src/test/java/org/apache/impala/catalog/FileMetadataLoaderTest.java:75-85 | after changing one file's modification time, a refresh loads 1, skips n−1, keeps every other descriptor and rebuilds the touched one |
| FileLoader.NoPreloadNoBlocks | fe/src/test/java/org/apache/impala/catalog/FileMetadataLoaderTest.java:88-110 | with preloading off no loaded descriptor has blocks |
| FileLoader.AuthorityOffNoBlocks | fe/src/test/java/org/apache/impala/catalog/FileMetadataLoaderTest.java:88-110 | the authority setting "false" leaves every loaded descriptor without blocks |
| FileLoader.MissingRootLoadsNothing | fe/src/test/java/org/apache/impala/catalog/FileMetadataLoaderTest.java:368-378 | a missing directory loads no descriptors and counts nothing |
| FileLoader.CandidateListed | fe/src/test/java/org/apache/impala/catalog/FileMetadataLoaderTest.java:113-142 | every candidate after the overlays is a listed file |
| FileLoader.LoadedNotHidden | fe/src/test/java/org/apache/impala/catalog/FileMetadataLoaderTest.java:382-406 | every loaded descriptor is that of a listed file outside hidden directories |
| FileLoader.HiddenDirectoryIgnored | fe/src/test/java/org/apache/impala/catalog/FileMetadataLoaderTest.java:382-406 | adding a hidden directory changes neither the candidates nor the superseded count |
| FileLoader.PlainCountsAddUp | fe/src/test/java/org/apache/impala/catalog/FileMetadataLoaderTest.java:67-72 | without ACID state, loaded plus skipped is the number of candidates and nothing is superseded |
| FileLoader.AcidCountsConserved | fe/src/test/java/org/apache/impala/catalog/FileMetadataLoaderTest.java:346-365 | with ACID state, loaded, skipped, superseded and invisible files add up to the listing |
| FileLoader.MinorCompactionLoad | fe/src/test/java/org/apache/impala/catalog/FileMetadataLoaderTest.java:346-365 | a first load after a minor compaction loads the compacted files and counts the K deltas as superseded |
| FileLoader.WithStatusDistinct | fe/src/test/java/org/apache/impala/catalog/FileMetadataLoaderTest.java:346-365 | the ACID filter keeps paths distinct |
| FileLoader.SelectLatestKeepsDistinct | fe/src/test/java/org/apache/impala/catalog/FileMetadataLoaderTest.java:113-142 | the Hudi filter keeps paths distinct |
| FileLoader.CandidatesDistinct | fe/src/test/java/org/apache/impala/catalog/FileMetadataLoaderTest.java:59-65 | no two candidates of a well-formed tree share a relative path |
| FileLoader.IdempotentRefresh | fe/src/test/java/org/apache/impala/catalog/FileMetadataLoaderTest.java:67-73 | refreshing with the descriptors of a load of the same tree gives them back and loads nothing |
| IcebergLoader.CountIcebergFresh | fe/src/test/java/org/apache/impala/catalog/FileMetadataLoaderTest.java:145-176 | at most as many fresh files as content files |
| IcebergLoader.FirstOutside | fe/src/test/java/org/apache/impala/catalog/FileMetadataLoaderTest.java:287-315 | the index of the first content file outside the table location, with every earlier one inside; None when all are inside |
| IcebergLoader.IcebergFileMetadataLoader.constructor | fe/src/test/java/org/apache/impala/catalog/FileMetadataLoaderTest.java:316-327 | stores its inputs and starts with no descriptors and zero counts |
| IcebergLoader.IcebergFileMetadataLoader.Load | fe/src/test/java/org/apache/impala/catalog/FileMetadataLoaderTest.java:145-176 | fails exactly when containment is required and a file is outside, naming the first such file and keeping nothing; otherwise one reconciled descriptor per content file and the fresh/reused counts |
| IcebergLoader.IcebergFileMetadataLoader.ReconcileAll | fe/src/test/java/org/apache/impala/catalog/FileMetadataLoaderTest.java:145-176 | the load's loop: stops at the first file outside when containment is required, else reconciles every file and counts the fresh ones |
| IcebergLoader.IcebergFileMetadataLoader.Reconcile | fe/src/test/java/org/apache/impala/catalog/FileMetadataLoaderTest.java:203-248 | a content file's descriptor: the old one of its key when the length matches, else a fresh one, with the manifest's metadata attached |
| IcebergLoader.KeysDistinct | fe/src/test/java/org/apache/impala/catalog/FileMetadataLoaderTest.java:287-315 | content files with distinct paths have distinct keys, inside the location or not, when every outside file has a URI scheme and no path relative to the location holds a ':' |
| IcebergLoader.SchemelessKeysCollide | fe/src/test/java/org/apache/impala/catalog/FileMetadataLoaderTest.java:287-315 | without the scheme condition, a file outside the location and one inside it can share a key |
| IcebergLoader.IcebergLoadedAsMatches | fe/src/test/java/org/apache/impala/catalog/FileMetadataLoaderTest.java:155-160 | every loaded descriptor carries its file's key and length |
| IcebergLoader.CountFreshFrom | fe/src/test/java/org/apache/impala/catalog/FileMetadataLoaderTest.java:251-284 | when exactly the files from position k on are fresh, n−k files are loaded |
| IcebergLoader.PartialRefresh | fe/src/test/java/org/apache/impala/catalog/FileMetadataLoaderTest.java:251-284 | refreshing with the first k descriptors of a load loads n−k and skips k |
| IcebergLoader.RefreshWithPrefix | fe/src/test/java/org/apache/impala/catalog/FileMetadataLoaderTest.java:287-315 | the same for the descriptors of an actual first load, which is what the multiple-storage-locations test does |
| IcebergLoader.MetadataReattached | fe/src/test/java/org/apache/impala/catalog/FileMetadataLoaderTest.java:203-248 | content kind, partition and sequence come from the manifest on every descriptor, reused or fresh |
| IcebergLoader.SchemeOffNoBlocks | fe/src/test/java/org/apache/impala/catalog/FileMetadataLoaderTest.java:179-200 | the scheme setting "false" leaves every Iceberg descriptor without blocks |
| Strings.Lower | be/src/observe/otel-test.cc:185-199 | lower-casing keeps the length and changes exactly the letters A–Z, each to its lower-case letter |
| Strings.LowerIdempotent | be/src/observe/otel-test.cc:185-199 | lower-casing twice is lower-casing once |
| OtelTls.TlsEnabled | be/src/observe/otel-test.cc:185-221 | TLS is on exactly when some prefix of the collector URL lower-cases to "https://" |
| OtelTls.TlsVectors | be/src/observe/otel-test.cc:185-221 | the two https URLs enable TLS; the empty URL and the two http URLs do not |
| OtelQuery.FindCloserSpec | be/src/observe/otel-test.cc:64-75 | the block-comment terminator found is the first one at or after the search start |
| OtelQuery.FindNewlineSpec | be/src/observe/otel-test.cc:56-63 | the newline found is the first one at or after the search start |
| OtelQuery.SkipIgnorableSound | be/src/observe/otel-test.cc:56-81 | what is left after skipping is a suffix of the statement that starts with statement text |
| OtelQuery.SkipLineComment | be/src/observe/otel-test.cc:56-63 | a terminated line comment is skipped |
| OtelQuery.SkipBlockComment | be/src/observe/otel-test.cc:64-75 | a terminated block comment is skipped |
| OtelQuery.SkipSpaces | be/src/observe/otel-test.cc:90-95 | leading whitespace is skipped |
| OtelQuery.SkipAll | be/src/observe/otel-test.cc:56-88 | any run of whitespace and terminated comments is skipped |
| OtelQuery.PrefixIrrelevant | be/src/observe/otel-test.cc:56-88 | a statement that is traced stays traced behind any run of whitespace and comments |
| OtelQuery.OnlyIgnorableNotTraced | be/src/observe/otel-test.cc:168-172 | a statement of only whitespace and comments is not traced |
| OtelQuery.TrailingLineCommentNotTraced | be/src/observe/otel-test.cc:169 | an unterminated line comment alone is not traced |
| OtelQuery.UnterminatedBlockNotTraced | be/src/observe/otel-test.cc:166 | an unterminated block comment is not traced, whatever it contains |
| OtelQuery.KeywordsStartWithLetter | be/src/observe/otel-test.cc:45-55 | every keyword of both tables starts with a letter, so it is statement text |
| OtelQuery.LetterIsSignificant | be/src/observe/otel-test.cc:45-55 | a statement starting with a letter has nothing to skip |
| OtelQuery.TracedKeyword | be/src/observe/otel-test.cc:45-55 | a statement starting with a traced keyword is traced, whatever follows |
| OtelQuery.PrefixRelated | be/src/observe/otel-test.cc:135-154 | a statement starting with one keyword starts with another only when the two agree over their common length |
| OtelQuery.KeywordTablesDisjoint | be/src/observe/otel-test.cc:135-154 | every untraced keyword differs from every traced one within their common length |
| OtelQuery.UntracedKeyword | be/src/observe/otel-test.cc:135-154 | a statement starting with an untraced keyword is not traced, whatever follows |
| OtelQuery.BeeswaxGatedByFlag | be/src/observe/otel-test.cc:117-123 | a Beeswax statement is traced exactly when the flag is set, given that the statement would be traced in HiveServer2 |
| OtelQuery.TracedAfter | be/src/observe/otel-test.cc:90-115 | a traced keyword behind any whitespace and comments is traced |
| OtelQuery.UntracedAfter | be/src/observe/otel-test.cc:155-160 | an untraced keyword behind any whitespace and comments is not traced |
| OtelQuery.LowerCaseNotTraced | be/src/observe/otel-test.cc:174 | keywords match as written: a statement that starts with a lower-case letter is not traced, in either session |
| OtelQueryVectors.TracedAfterBlockAndLine | be/src/observe/otel-test.cc:100-104 | a block comment, whitespace, a line comment and whitespace before a traced keyword: traced |
| OtelQueryVectors.TracedAfterLine | be/src/observe/otel-test.cc:97 | a line comment and whitespace before a traced keyword: traced |
| OtelQueryVectors.TracedAfterBlock | be/src/observe/otel-test.cc:98 | a block comment and whitespace before a traced keyword: traced |
| OtelQueryVectors.UntracedAfterBlock | be/src/observe/otel-test.cc:155-156 | a block comment and whitespace before an untraced keyword: not traced |
| OtelQueryVectors.TwoLineCommentsNotTraced | be/src/observe/otel-test.cc:172 | two terminated line comments alone: not traced |
| OtelQueryVectors.BlockCommentOnlyNotTraced | be/src/observe/otel-test.cc:168 | a block comment alone: not traced |
| OtelQueryVectors.SecondBlockUnterminatedNotTraced | be/src/observe/otel-test.cc:167 | a block comment then an unterminated one: not traced |
| OtelQueryVectors.TracedAfterLineComment | be/src/observe/otel-test.cc:56-58 | after the line comment "-- comment1", with or without a block comment inside it, "SELECT 1" is traced |
| OtelQueryVectors.TracedAfterMixedComments | be/src/observe/otel-test.cc:76 | block comment, spaces, line comment, spaces, SELECT: traced |
| OtelQueryVectors.TracedAfterSelfOverlappingOpener | be/src/observe/otel-test.cc:95 | a block comment whose opener is followed by '/' does not close at once; SELECT after it is traced |
| OtelQueryVectors.TracedWithAfterBlockAndLine | be/src/observe/otel-test.cc:102 | the WITH row of the newline vectors: traced |
| OtelQueryVectors.TracedKeywordInLiteralIrrelevant | be/src/observe/otel-test.cc:82 | SELECT followed by a literal: traced |
| OtelQueryVectors.BeeswaxVectors | be/src/observe/otel-test.cc:117-123 | the Beeswax SELECT is traced with the flag on and not with it off |
| OtelQueryVectors.ExplainSelectNotTraced | be/src/observe/otel-test.cc:137 | EXPLAIN SELECT: not traced |
| OtelQueryVectors.RefreshAcrossNewlineNotTraced | be/src/observe/otel-test.cc:165 | REFRESH, spaces and a newline, AUTHORIZATION: not traced |
| OtelQueryVectors.SetAfterBlockCommentNotTraced | be/src/observe/otel-test.cc:156 | a block comment, spaces, SET: not traced |
| OtelQueryVectors.LowerCaseAfterSelfOverlappingOpenerNotTraced | be/src/observe/otel-test.cc:174 | the statement "/*/ comment */select * from tbl" is not traced, as the test expects |
| OtelQueryVectors.UnterminatedVectorNotTraced | be/src/observe/otel-test.cc:166 | the unterminated-comment vector: not traced |
| OtelQueryVectors.SecondBlockUnterminatedVectorNotTraced | be/src/observe/otel-test.cc:167 | the second-comment-unterminated vector: not traced |
| OtelQueryVectors.BlockCommentOnlyVectorNotTraced | be/src/observe/otel-test.cc:168 | the comment-only vector: not traced |
| OtelQueryVectors.LineCommentOnlyNotTraced | be/src/observe/otel-test.cc:169 | the line-comment-only vector: not traced |
| OtelQueryVectors.LineCommentsOnlyNotTraced | be/src/observe/otel-test.cc:172 | two line comments, each ended by a newline: not traced |
| OtelValues.DictKey | tests/util/otel_trace.py:337-347 | a value's dictionary key is not a bool and equals the value under Python's == |
| OtelValues.DictKeyMatchesEquality | tests/util/otel_trace.py:337-347 | two values are the same dictionary key exactly when Python finds them equal (True and 1 collide) |
| OtelValues.GetType | tests/util/otel_trace.py:73-79 | "bool" exactly for booleans, "int" exactly for integers, "string" for the rest |
| OtelValues.IntFirstMisreportsBooleans | tests/util/otel_trace.py:73-79 | testing for int before bool would report a boolean as "int" |
| OtelValues.Strip | tests/util/otel_trace.py:188 | stripping leaves no whitespace at either end and never lengthens |
| OtelValues.StripSlice | tests/util/otel_trace.py:188 | the stripped text is one contiguous slice of the input, and everything cut from either end is whitespace |
| OtelValues.StripNoSpaceAtEnds | tests/util/otel_trace.py:188 | stripping text without whitespace at its ends leaves it unchanged |
| OtelValues.StripKeepsCharacters | tests/util/otel_trace.py:188 | stripping only removes characters |
| OtelValues.ParseDigits | tests/util/otel_trace.py:188 | a digit string parses exactly when it is non-empty and all digits |
| OtelValues.NatToString | tests/util/otel_trace.py:188 | the decimal form of a natural number is non-empty and all digits |
| OtelValues.DigitsOfNatToString | tests/util/otel_trace.py:188 | reading the decimal form gives the number back |
| OtelValues.ParseIntRoundTrip | tests/util/otel_trace.py:67 | int(str(n)) == n for every integer n |
| OtelValues.ParseIntNeedsDigit | tests/util/otel_trace.py:189-191 | text without any digit is rejected, as int() raises |
| OtelValues.DecodeAttribute | tests/util/otel_trace.py:60-71 | a missing value fails; stringValue, then intValue, then boolValue decides the value; an int that does not parse or no known member fails |
| OtelValues.DecodeEncode | tests/util/otel_trace.py:60-71 | decoding what the exporter writes gives the value back with its type |
| OtelSpans.OtelSpan.constructor | tests/util/otel_trace.py:144-157 | a new span has empty fields, no parent, no attributes and no events |
| OtelSpans.OtelSpan.AddAttribute | tests/util/otel_trace.py:162-174 | stores or replaces the attribute; the QueryId attribute also sets the query id; events and the other fields stay |
| OtelSpans.OtelSpan.AddEvent | tests/util/otel_trace.py:176-191 | a time that parses as an integer is stored under the event name; otherwise the call fails and nothing changes |
| OtelSpans.OtelSpan.AddEvents | tests/util/otel_trace.py:282-284 | adding a span's events in order passes exactly when every time parses, and then leaves the events `EventsAfter` the run; attributes, query id and header stay as they were |
| OtelSpans.EventsAfter | tests/util/otel_trace.py:282-284 | after a run of events, the names are those already present plus those added |
| OtelSpans.EventsAfterKeepsLast | tests/util/otel_trace.py:282-284 | a name added several times keeps its last time |
| OtelSpans.GroupSpans | tests/util/otel_trace.py:337-347 | the grouping loop builds the two dictionaries that Grouped specifies |
| OtelSpans.GroupedContents | tests/util/otel_trace.py:337-347 | a trace exists for each trace id carried by a span, with its last root and its children in order |
| OtelSpans.GroupedTraceIds | tests/util/otel_trace.py:337-347 | the trace ids are exactly those the spans carry |
| OtelSpans.GroupedTraces | tests/util/otel_trace.py:337-347 | each trace holds its last root span and its non-root spans in input order |
| OtelSpans.NoSpansOfTrace | tests/util/otel_trace.py:337-347 | a trace id no span carries has no root and no children |
| OtelSpans.GroupedQueries | tests/util/otel_trace.py:337-347 | a query id is indexed exactly when a root span carries it, pointing at the trace of the last such root |
| OtelSpans.EverySpanPlaced | tests/util/otel_trace.py:337-347 | every span lands in the trace of its trace id, as a child when it has a parent |
| OtelSpans.ChildInChildren | tests/util/otel_trace.py:345-347 | a span with a parent is among the children of its trace |
| OtelSpans.RootFound | tests/util/otel_trace.py:342-344 | a trace with a root span among the input has a root |
| OtelSpans.IndexedTracesHaveRoots | tests/util/otel_trace.py:349-358 | a query id always leads to an existing trace that has a root span |
| OtelSpans.FindTrace | tests/util/otel_trace.py:349-358 | the four checks in order: no roots at all, query unknown, trace None, no root; otherwise the trace indexed under the query id |
| OtelSpans.LookupAfterGrouping | tests/util/otel_trace.py:349-358 | after grouping only the first two checks can fail |
| OtelAssert.NormalizeStatus | tests/util/otel_trace.py:385-386 | "OK" reads as no error; any other status is kept |
| OtelAssert.ErroredByMeansEarlierFailure | tests/util/otel_trace.py:402-474 | the error flag is set after a stage exactly when a present stage at or before it is the failing one |
| OtelAssert.StageChecks | tests/util/otel_trace.py:402-474 | the stage loop produces ExpectedChecks: one check per present stage, in order |
| OtelAssert.StageStep | tests/util/otel_trace.py:415-474 | one stage of the chain extends the checks and sets the error flag as specified |
| OtelAssert.ErrorFollowsOn | tests/util/otel_trace.py:417-475 | from a present failing stage on, every present stage from Planning on expects the status as error message, and Planning and AdmissionControl expect ERROR; every stage before the failing one, and Init and Submitted always, expect no error message, and no stage before it expects ERROR |
| OtelAssert.NoErrorWithoutFailingStage | tests/util/otel_trace.py:415-474 | without a present failing stage, no stage expects an error message or the ERROR status |
| OtelAssert.ChildCountMatchesChecks | tests/util/otel_trace.py:377-382 | the expected child count, six minus the missing stages, is the number of checked stages |
| OtelAssert.ChildSpanPerCheck | tests/util/otel_trace.py:478-504 | a trace that passes `__assert_trace_common` with the expected count has exactly one child span per checked stage |
| OtelAssert.ChecksCount | tests/util/otel_trace.py:377-474 | checked plus missing stages before any point add up to that point |
| OtelAssert.MissingCount | tests/util/otel_trace.py:377-378 | distinct missing stage names count as many stages |
| OtelAssert.StagesDistinct | tests/util/otel_trace.py:415-474 | no stage is visited twice |
| OtelAssert.ChildNameIdentifiesStage | tests/util/otel_trace.py:528-548 | a child span's expected name ends with its own stage name and with no other |
| OtelAssert.ExpectedChecksMembers | tests/util/otel_trace.py:417-475 | a check is made exactly for each present stage, and every check made is the check of a present stage |
| OtelAssert.ChecksThroughMembers | tests/util/otel_trace.py:417-475 | the checks made before a stage are exactly the checks of the present stages before it |
| OtelAssert.ErrorMessageOnSpan | tests/util/otel_trace.py:564-577 | on a span that passes its stage's assertions, the ErrorMsg attribute is the query status from the failing stage on (Planning onwards) and empty elsewhere; Planning and AdmissionControl carry ERROR from the failing stage on, and before it only a profile state can read ERROR |
| OtelAssert.RunningOnlyOnExecution | tests/util/otel_trace.py:575-576 | the Running attribute of a checked span is true exactly on QueryExecution |
| OtelAssert.AttributeCounts | tests/util/otel_trace.py:565-568 | a checked child span has the root as parent, kind 1, the name "<query id> - <stage>", and 16, 7, 8, 10, 10 or 7 attributes for Init to Close |
| OtelAssert.RootSpanFacts | tests/util/otel_trace.py:648-669 | the checked root span has 14 attributes, no parent, the query id as name, and the query status as ErrorMessage |
| OtelAssert.ChildParentIsRoot | tests/util/otel_trace.py:413-474 | when the root check passes and its logged span id is handed to a child's check, that child's parent is the root span (kind 1 under kind 2) |
| OtelAssert.CheckedSpanEvents | tests/util/otel_trace.py:697-749 | Init, Submitted and Planning spans carry no event; the AdmissionControl span carries exactly the Queued event when the query was queued, and none otherwise |
| OtelAssert.LastCharactersDistinct | tests/util/otel_trace.py:790-799 | the stage names end in different letters, so a suffix search cannot confuse them |
| OtelAssert.AttrMatchesExactly | tests/util/otel_trace.py:607-633 | an attribute passes exactly when the key is present with the expected value and type |
| OtelAssert.EqualityAloneConfusesBoolAndInt | tests/util/otel_trace.py:620-631 | without the type check the integer 1 would pass for True; with it, it fails |
| OtelAssert.FindSpan | tests/util/otel_trace.py:790-799 | returns the first span whose name ends with the suffix, failing when there is none |
| OtelAssert.FirstEndingWithSpec | tests/util/otel_trace.py:790-799 | none is found exactly when no name ends with the suffix; a span found is in the list, matches, and no earlier one does |
| OtelAssert.FirstEndingWithAt | tests/util/otel_trace.py:790-799 | the search returns the span at k when it is the first that matches |
| OtelAssert.FindsStageSpan | tests/util/otel_trace.py:790-799 | among child spans named as the assertions expect, the search for a stage finds that stage's span |

## Left out

- JSON decoding of trace-file lines, the retry loop around reading the file, and `wait_for_file_line_count` are I/O. Decoded JSON scalars and span lists are inputs.
- Log-file grepping for span and trace ids (`__find_span_log`), and the query-profile parsers, are left out. Their results would be parameters.
- Resource-attribute checks against environment values are not modelled, since they read the process environment.
- The Python 2 `unicode` branches of `add_attribute` and `add_event` are not modelled: only Python 3 is.
- ParseInt does not accept underscores or non-ASCII digits as Python's `int()` does: it models the decimal strings OTLP/JSON writes.
- OtelQuery.ShouldTraceQuery: keywords match case-sensitively, so a statement starting with a lower-case keyword is not traced. For the statement at otel-test.cc line 174 this gives what the test expects today; the test marks it as a known bug, so intended case-insensitive matching is not modelled.
- OtelAssert.StageChecks: the stage-specific attributes (QueryId, SessionId, Coordinator, QueryString, QueryType, Queued, AdmissionResult, the row counts and the like) are not modelled, since their expected values are read from the query profile. The common span assertions, the error chain and the span events are modelled.
- The query states INITIALIZED, PENDING and ERROR come from `tests/common/impala_connection.py`, which is not part of this model. `StatusText` takes each to be its own name as text.
- The `Close` span's extra expected event is not modelled, because the source builds the list and never asserts it.
- Concurrency is not modelled: the concurrent host index, and parallel listing and block resolution. Loads are sequential over one `ListMap`.
- Storage is a tree value; listing order is the tree's order. Storage-unavailable errors are not modelled; a missing root directory is `None`.
- Block-location resolution through the file system is an input: each listed file carries its block locations.
- The default file system of a scheme-less location is not modelled: such a location has no scheme or authority key, and preloading follows the default.
- Storage.ListedNotHidden: files whose own name is hidden ('.' or '_') are dropped too. This is the model's choice: the hidden-directory test (`FileMetadataLoaderTest.java:394-401`) puts its one hidden-named file inside a hidden directory, so no test adds a hidden-named file outside one.
- Hive write-id directory-name parsing and `ValidReadTxnList` are not modelled: directory ranges and the write-id snapshot are inputs.
- Files at the root of an ACID table have no range and are not loaded.
- The tie-break between two covering directories (taking the larger upper bound) is not modelled. It does not change which files are kept, only which compacted directory is said to cover.
- Hudi: the version filter is modelled on the base-file name pattern, with commit times compared as strings. The Hudi library's timeline is not modelled.
- The Iceberg partition list, rebuilt from the manifest on every load, is not modelled.
- Manifest reading, `setTimes` and table copying in the tests, and the real HDFS are outside the model.
- The helpers `query_profile_util.py`, `iceberg_rest_server.py` and `test_iceberg_rest_catalog.py` are outside the model.
