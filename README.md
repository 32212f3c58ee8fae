# import-google-apis, modelled in Dafny

`import-google-apis` turns the Google API catalogue into API Registry YAML.
The catalogue is the `googleapis` repository's `api-index-v1.json`. For each
API in the index, `describeAPI` does five things:

- It walks the API's directory for `.proto` files and skips the API if it has none.
- It compiles those files with `protoc` and reads the FileDescriptorSet that
  protoc writes.
- It takes the descriptor set's file names, keeps those outside
  `google/protobuf/`, removes duplicates and sorts them.
- It copies each of those files into `apis/google.com/<apiID>/<version>/protos`,
  together with the service configuration.
- It writes three `info.yaml` records: a Spec, a Version and an API.

This project models that logic on values. A directory walk is the sequence
of visits `filepath.Walk` makes. The protoc run, together with reading and
decoding its output, is an oracle function from the argument list to an
outcome. The file copies and YAML writes become a plan: a list of
(source, destination) copies and a list of (path, record) pairs. `main` is
modelled as one run. It fetches the dependencies, lists every proto under
`deps` and reads the index from `deps/googleapis`, and each of these steps
panics on error. Then it describes the index entries in order, walking
each entry's directory under `deps/googleapis`, until one fails.

Modules, one per file:

| module | file | what it holds |
|---|---|---|
| `Wrappers` | wrappers.dfy | A small `Option`/`Result` library. |
| `Strings` | strings.dfy | `strings.HasPrefix`, `HasSuffix`, `TrimSuffix` and `ReplaceAll` for one character. Also lexicographic order, which is the order `sort.Strings` uses. |
| `Paths` | paths.dfy | `filepath.Join`, `Clean` and `Base` for '/'-separated paths, and when `Join` is a plain concatenation. |
| `Walk` | walk.dfy | The `.proto` filter of `listAllProtos` and of `describeAPI`'s walk. |
| `Resolver` | resolver.dfy | `protosFromFileDescriptorSet`. It filters through a map, collects the map's keys and sorts them in place with an insertion sort. |
| `Protoc` | protoc.dfy | The argument list of `referencedProtos`, and how a protoc outcome becomes a result. |
| `Assembler` | assembler.dfy | The copy loop with its first-match `break`, and the service-configuration copy. |
| `Registry` | registry.dfy | The API index entry, `apiID`, the Spec, Version and API records, their labels, and `displayName`. |
| `Importer` | importer.dfy | `describeAPI` as one outcome: skipped, failed, or described by copies and records. Also `main` as one run over the index. |

## Model

| member | source | states |
|---|---|---|
| Strings.HasPrefix | main.go:337 | `strings.HasPrefix`: the string begins with the prefix. `Resolver.Resolved` and `Registry.DisplayName` state their results through it. |
| Strings.HasSuffix | main.go:135 | `strings.HasSuffix`: the string ends with the suffix. `Walk.ProtosInExactly` and `Assembler.FirstSuffixMatchSpec` state their results through it. |
| Strings.TrimSuffix | main.go:155 | A string with the suffix loses exactly that one suffix. A string without it is unchanged. |
| Strings.ReplaceChar | main.go:196 | `strings.ReplaceAll` with one-character arguments. `ReplaceCharSpec` states its meaning position by position. |
| Strings.ReplaceCharSpec | main.go:196 | `ReplaceAll` of one character keeps the length and replaces exactly the positions that held the old character. None of that character is left. |
| Strings.ReplaceCharAbsent | main.go:309 | A string without the old character is left unchanged, as the include directory without ';' is. |
| Strings.Less | main.go:345 | The order `sort.Strings` sorts by: lexicographic comparison. `LessIrreflexive`, `LessAsymmetric`, `LessTransitive` and `LessTotal` prove it a strict total order. |
| Strings.LessIrreflexive | main.go:345 | No string is below itself. |
| Strings.LessTransitive | main.go:345 | The byte order used by `sort.Strings` is transitive. |
| Strings.LessTotal | main.go:345 | Of two different strings, one is below the other. |
| Strings.LessAsymmetric | main.go:345 | No two strings are each below the other. |
| Paths.Join | main.go:124 | `filepath.Join`: leading empty elements are skipped, and the rest are joined with '/' and cleaned. `JoinProper` states when this is a plain concatenation. |
| Paths.Clean | main.go:124 | `filepath.Clean` on '/'-separated paths. `CleanProper` states that it leaves a proper path unchanged. |
| Paths.CleanProper | main.go:124 | Clean leaves a relative path with no empty, "." or ".." element unchanged. |
| Paths.JoinSplit | main.go:124 | Joining the '/'-separated elements of a path with '/' gives the path back. |
| Paths.SplitConcat | main.go:124 | The elements of `a/b` are those of `a` followed by those of `b`. |
| Paths.JoinProper | main.go:166 | `filepath.Join` of proper relative paths (no empty, "." or ".." segments) is their '/'-concatenation, and the result is proper. |
| Paths.JoinTwo | main.go:124 | `filepath.Join(a, b)` of proper paths is `a + "/" + b`. |
| Paths.Base | main.go:309 | `filepath.Base`: trailing separators are dropped and the last element is returned, "/" for a path of separators only and "." for the empty path. `BaseOf` states the case the importer uses. |
| Paths.BaseOf | main.go:309 | `filepath.Base` of `prefix/name` is `name`. |
| Paths.ProperPair | main.go:44 | Two proper names without '/' joined by one '/' make a proper path. |
| Walk.IsProtoFile | main.go:132-137 | A visit is kept when it is a readable non-directory whose path ends in ".proto". |
| Walk.FirstError | main.go:128-131 | The error that ends the walk. `FirstErrorSpec` states which one it is. |
| Walk.ProtosIn | main.go:128-139 | The paths the callback collects before the walk ends. `ProtosInExactly`, `ProtosInAppend` and `NoProtos` state what they are. |
| Walk.FirstErrorSpec | main.go:103-105 | The walk fails exactly when some path is unreadable, and it fails with the first such path's error. |
| Walk.WalkProtos | main.go:100-115 | The walk callback collects the same paths as `ProtosIn` and ends with the same error as `FirstError`. This covers `listAllProtos` and the walk in `describeAPI`. |
| Walk.ProtosInExactly | main.go:106-111 | In a walk without errors, a path is collected exactly when it was visited as a non-directory and ends in ".proto". |
| Walk.ProtosInAppend | main.go:133-137 | Collection keeps the walk's order: the paths from two walks come out in sequence. |
| Walk.NoProtos | main.go:144-147 | In a walk without errors, nothing is collected exactly when no visited file ends in ".proto". |
| Resolver.Packaged | main.go:337 | A descriptor name is packaged when it does not start with "google/protobuf/". |
| Resolver.Insert | main.go:338 | Inserting into a strictly sorted list keeps it strictly sorted, and the result holds exactly the old elements and the new one. |
| Resolver.Resolved | main.go:334-346 | The resolved list is strictly increasing. It holds exactly the input names that do not start with "google/protobuf/". |
| Resolver.SortedUnique | main.go:342-345 | Two strictly sorted lists with the same elements are equal, so sorting the map's keys gives the same list whatever order the map yields them in. |
| Resolver.ResolvedDependsOnlyOnNames | main.go:334-346 | The result depends only on which names occur, not on their order or how often they occur. |
| Resolver.ResolvedFixedPoint | main.go:334-346 | A strictly sorted list of names outside "google/protobuf/" resolves to itself. |
| Resolver.ResolvedIdempotent | main.go:334-346 | Resolving a resolved list changes nothing. |
| Resolver.ResolvedSingleRoot | main.go:334-346 | A single root that imports nothing resolves to just itself. |
| Resolver.InsertIntoPrefix | main.go:345 | One insertion step of the sort: the array's first i+1 elements become sorted, and its contents are the same multiset as before. |
| Resolver.InsertingSwap | main.go:345 | Swapping an element that is below its left neighbour moves the unsorted position one step down, and the multiset of elements is unchanged. |
| Resolver.InsertingDone | main.go:345 | Once the moving element is not below its left neighbour, the first i+1 elements are in order. |
| Resolver.SortStrings | main.go:345 | `sort.Strings` sorts the array in place, and the result is a permutation of the input. |
| Resolver.DistinctPermutation | main.go:342-345 | A permutation of a list without repetitions has no repetitions either. |
| Resolver.SortedDistinct | main.go:345 | A sorted list without repetitions is strictly sorted. |
| Resolver.ProtosFromFileDescriptorSet | main.go:334-346 | The map loop, the key loop and the sort together return `Resolved(files)`. The result is strictly sorted and holds exactly the packaged names. |
| Protoc.IncludeDir | main.go:309 | The include directory of one dependency: `Join(dir, Base(d))` with ';' replaced by '/'. `IncludeDirOf` states its value for proper paths. |
| Protoc.ImportFlags | main.go:306-310 | The `-I` flags, one pair per dependency. `ImportFlagsLayout` states their layout. |
| Protoc.ProtocArgs | main.go:304-313 | The protoc argument list. `ProtocArgsLayout` states its layout. |
| Protoc.Referenced | main.go:316-320 | A protoc failure gives "failed to compile protos with protoc: " followed by the error text. A read or decode failure is returned as it is. Otherwise the result is `Resolved` of the descriptor names. `ReferencedProtos` is proved to compute it. |
| Protoc.ImportFlagsLayout | main.go:307-310 | There is one `-I` pair per dependency, in order. Each pair is "-I" followed by `Join(dir, Base(d))` with ';' replaced by '/'. |
| Protoc.ProtocArgsLayout | main.go:304-313 | The argument list has length 3 + 2·deps + protos. It starts with "-o", tempDir + "/proto.pb" and "--include_imports". Then come the `-I` pairs in dependency order, and then the protos unchanged and in order. |
| Protoc.BaseOfConfiguredDep | main.go:41-43 | The base of the configured googleapis URL is "googleapis". |
| Protoc.IncludeDirOf | main.go:309 | For proper paths without ';', the include directory is `dir + "/" + Base(dep)`. |
| Protoc.ConfiguredIncludeDir | main.go:304-309 | The include directory of the configured dependency is "deps/googleapis". |
| Protoc.SingleDepArgs | main.go:304-313 | With one dependency, the argument list is the three fixed flags, one `-I` pair and the protos. |
| Protoc.ConfiguredArgs | main.go:304-313 | For the configured dependency, the arguments are "-o", tempDir + "/proto.pb", "--include_imports", "-I", "deps/googleapis", then the protos. |
| Protoc.ReferencedProtos | main.go:304-321 | The loop builds `ProtocArgs`. A protoc failure gives an error with the source's message. A failure to read or decode the descriptors returns that error. Otherwise the result is the resolved, strictly sorted file list. |
| Assembler.FirstSuffixMatch | main.go:168-176 | The index found lies within the list of physical paths. |
| Assembler.FirstSuffixMatchSpec | main.go:168-176 | The index found is that of the first physical path ending with the logical path. There is none exactly when no path ends with it. |
| Assembler.CopiesFor | main.go:168-176 | What the inner loop plans for one logical path. `CopiesForSpec` states it. |
| Assembler.ProtoCopies | main.go:167-177 | The copies the outer loop plans. `ProtoCopiesSound`, `ProtoCopiesComplete` and `ProtoCopiesMembers` state which they are. |
| Assembler.ConfigCopy | main.go:180-181 | The service configuration goes from `Join(container, configFile)` to `Join(specDir, directory, configFile)`. `PlanCopies` and `Importer.DescribedShape` place it last in the plan. |
| Assembler.CopiesForSpec | main.go:167-177 | A logical path gets no copy exactly when no physical path ends with it. Otherwise it gets one copy, from the first such path to `specDir/a`. |
| Assembler.PlanCopies | main.go:166-182 | The nested loop with `break` plans `ProtoCopies`, followed by the service-configuration copy from `container/configFile` to `specDir/directory/configFile`. |
| Assembler.ProtoCopiesAppend | main.go:167 | The plan for a concatenation of logical paths is the concatenation of their plans. |
| Assembler.UnmatchedOmitted | main.go:167-177 | A logical path with no physical match leaves the plan as if it were absent. |
| Assembler.ProtoCopiesMembers | main.go:167-177 | A copy is planned exactly when one of the logical paths contributes it. |
| Assembler.ProtoCopiesAllFound | main.go:167-177 | When every logical path has a match, there is one copy per path, and the i-th copy is that of the i-th path. |
| Assembler.ProtoCopiesSound | main.go:167-177 | Every planned copy comes from a physical path ending with some logical path `n`, and goes to `specDir/n`. |
| Assembler.ProtoCopiesComplete | main.go:167-177 | A logical path that some physical path ends with is copied, from the first physical path that does. |
| Registry.ApiId | main.go:155 | `apiID`: the service name without one trailing ".googleapis.com". `ApiIdTrims` states it. |
| Registry.ApiName | main.go:257 | The API's name, `provider-apiID`. `RecordHierarchy` relates it to the Version's parent. |
| Registry.VersionParent | main.go:228 | The Version's parent, `apis/provider-apiID`. |
| Registry.SpecParent | main.go:193 | The Spec's parent, `apis/provider-apiID/versions/versionID`. |
| Registry.RunLabels | main.go:195-199 | The labels of every record. `ProviderLabel` and `SharedLabels` state them. |
| Registry.SpecRecord | main.go:188-211 | The Spec record. `RecordContents`, `RecordIdentifiers` and `RecordHierarchy` state its fields. |
| Registry.VersionRecord | main.go:223-240 | The Version record. `RecordContents`, `RecordIdentifiers` and `RecordHierarchy` state its fields. |
| Registry.ApiRecord | main.go:252-268 | The API record. `RecordContents`, `RecordIdentifiers` and `RecordHierarchy` state its fields. |
| Registry.ApiIdTrims | main.go:155 | `apiID` is the service name with one trailing ".googleapis.com" removed, or the whole name when it has no such suffix. |
| Registry.ApiIdOfHostName | main.go:155 | The `apiID` of `service + ".googleapis.com"` is `service`. |
| Registry.DisplayName | main.go:349-354 | The display name always starts with "Google". A title that starts with "Google" is kept, and any other title gets "Google " in front. |
| Registry.DisplayNameIdempotent | main.go:349-354 | Applying `displayName` to its own result changes nothing. |
| Registry.RecordContents | main.go:188-268 | The three records are of kinds Spec, Version and API, all at apigeeregistry/v1. The Spec carries the protos.zip data and the entry's config, directory and host. The Version is displayed as its version. The API has no parent and is displayed under a Google title. |
| Registry.RecordIdentifiers | main.go:193-257 | The identifiers are `provider-apiID` for the API; parent `apis/provider-apiID` with name `versionID` for the Version; and parent `apis/provider-apiID/versions/versionID` with name "protos" for the Spec. |
| Registry.RecordHierarchy | main.go:193-257 | The records form a hierarchy. The Version's parent is "apis/" followed by the API record's name. The Spec's parent is the Version's parent, then "/versions/", then the Version record's name. |
| Registry.SharedLabels | main.go:195-262 | All three records carry the same labels. |
| Registry.DotsReplaced | main.go:196 | `strings.ReplaceAll("google.com", ".", "-")` is "google-com". |
| Registry.ProviderLabel | main.go:196-198 | The provider label is "google-com" and contains no '.'. The updated label is the run date and the source label is "import-google-apis". |
| Registry.ExampleIdentifiers | main.go:155-257 | For service "foo.googleapis.com" at "v1", the identifiers are "google.com-foo", "apis/google.com-foo" / "v1", and "apis/google.com-foo/versions/v1" / "protos". |
| Importer.SpecDir | main.go:166 | The spec directory `Join(out, apiID, versionID, specID)`. `SpecDirLayout` states its value. |
| Importer.Records | main.go:216-273 | The three records, each with the path it is saved at. `RecordsLayout` states the paths and `DescribedShape` the order. |
| Importer.Plan | main.go:166-182 | The outcome once the referenced files are known: the copy plan and the records. `PlanShape` states its shape. |
| Importer.PlanShape | main.go:166-276 | A plan ends with the service-configuration copy, and its records are the Spec, Version and API, in that order. |
| Importer.Describe | main.go:118-280 | `describeAPI` as one outcome. `SkippedExactly`, `WalkErrorFails`, `CompileFailureFails`, `DescribedShape`, `DescribedPlan`, `DescribedCopiesSound` and `DescribedCopiesComplete` state it case by case. |
| Importer.DescribeApi | main.go:118-280 | The walk, the skip, the compilation and the copy loop, run in order, give the outcome `Describe`. A described outcome has a non-empty plan and three records. |
| Importer.SkippedExactly | main.go:127-147 | An API is skipped, with no error, no copies and no records, exactly when its walk had no error and found no ".proto" file. |
| Importer.WalkErrorFails | main.go:128-142 | The first unreadable path of the walk is the error `describeAPI` fails with. |
| Importer.CompileFailureFails | main.go:316-319 | A failing protoc run fails the API with "failed to compile protos with protoc: " followed by the error text. |
| Importer.DescribedShape | main.go:180-276 | A described API's plan ends with the service-configuration copy, and it writes the Spec, Version and API records in that order. |
| Importer.DescribedPlan | main.go:149-177 | Once protoc yields a descriptor set, the proto copies are the plan for its resolved names. |
| Importer.DescribedCopiesSound | main.go:149-177 | Every proto copy goes from a physical path to `specDir/n`, where the path ends with a descriptor name `n` outside "google/protobuf/". |
| Importer.DescribedCopiesComplete | main.go:149-177 | Every descriptor name outside "google/protobuf/" that some physical path ends with is copied, from the first such path. |
| Importer.OutIsProper | main.go:44 | The output directory "apis/google.com" is a proper relative path. |
| Importer.SpecDirLayout | main.go:166 | For proper `apiID` and version, the spec directory is "apis/google.com/apiID/version/protos". |
| Importer.RootIs | main.go:34-35 | `filepath.Join(dir, top)` is "deps/googleapis", and it is a proper path. |
| Importer.Root | main.go:57-62 | The directory `main` reads the index from and passes to `describeAPI` as `root`. `RootIs` states its value. |
| Importer.IndexPath | main.go:87 | The index file inside the root. `IndexPathIs` states its value. |
| Importer.IndexPathIs | main.go:87 | The index is read from "deps/googleapis/api-index-v1.json". |
| Importer.ContainerUnderRoot | main.go:124 | With `root` from `main`, an API with a proper directory `d` is walked at "deps/googleapis/" + d. |
| Importer.SpecRecordPath | main.go:216 | For proper identifiers the Spec record path is "apis/google.com/apiID/versionID/protos/info.yaml". |
| Importer.VersionRecordPath | main.go:245 | For proper identifiers the Version record path is "apis/google.com/apiID/versionID/info.yaml". |
| Importer.ApiRecordPath | main.go:273 | For a proper `apiID` the API record path is "apis/google.com/apiID/info.yaml". |
| Importer.RecordsLayout | main.go:216-273 | The Spec record is saved in the spec directory, the Version record in the version's directory above it, and the API record in the API's directory above that. |
| Importer.EntryOutcome | main.go:62 | `describeAPI(api, Join(dir, top), allProtos)` for the k-th index entry, whose directory is walked under the root. |
| Importer.EntryOutcomes | main.go:61-62 | One outcome per index entry, in index order: the k-th is `EntryOutcome` of entry k. |
| Importer.UntilFailure | main.go:61-66 | The outcomes `main` gets through: all of them up to and including the first failure. |
| Importer.UntilFailureSpec | main.go:61-66 | What is processed is a prefix of the outcomes with no failure before its last element. It is shorter than the index exactly when it ends at a failure. |
| Importer.UntilFailureFrom | main.go:61-66 | After k outcomes without failure, what is processed is those k followed by what is processed from k on. |
| Importer.UntilFailureStep | main.go:61-66 | One loop step: a failure completes what is processed, and any other outcome extends the prefix. |
| Importer.DescribeEntry | main.go:62 | Calling `DescribeApi` on entry k, with the walk of its directory under the root, gives `EntryOutcome` of entry k. |
| Importer.DescribeEntries | main.go:61-66 | `main`'s loop over the index computes `UntilFailure` of the entries' outcomes. |
| Importer.Import | main.go:47-67 | `main` as one run. A fetch, listing or index error panics. Otherwise the entries are processed until the first failure. `ImportProcesses` states it. |
| Importer.ImportApis | main.go:47-67 | The three panicking steps followed by the loop compute `Import`. |
| Importer.ImportProcesses | main.go:47-67 | The run gets past its three panicking steps exactly when the fetch, the listing of "deps" and the reading of the index all succeed. Then each processed entry is `describeAPI` under "deps/googleapis", with every proto under "deps" as the physical paths, in index order. Every outcome but the last is not a failure, and the run stops before the end of the index exactly at a failure. |

## Left out

- `pkg/fetch/fetch.go` (clones with `git` and checks for an existing checkout) is not part of this model. `FetchDependencies`'s error is an input of `Import`.
- The protoc process, its working directory and its combined output are not modelled. One function, a parameter of the model, stands for the run and for reading and unmarshalling `proto.pb`. It returns one of three things. The first is a failure with the text of `CombinedOutput`'s error, which covers both a protoc that cannot be started and one that exits unsuccessfully. The second is a read or decode error. The third is the descriptor set's file names.
- `os.MkdirTemp` is an input of type `Result<string>`. Its failure becomes the API's error. `defer os.RemoveAll` is not modelled. In `Import`, the k-th entry's temporary directory is given by a function of k.
- `filepath.Walk` is a given sequence of visits. Which files exist, and the order Walk visits them in (lexical), are parameters, not computed. In `Import` the file system is a function from the walked directory to its visits.
- `copyFile`, `os.MkdirAll` and `os.WriteFile` are not performed, and their errors are not modelled. The copies and the records with their paths are the outcome. The directory created at main.go:160 is the spec directory, the same path as `SpecDir`.
- YAML is not modelled: `yaml.Marshal` of the entry at main.go:119, `readIndex`'s reading and unmarshalling, and `encoding.EncodeYAML` of the records. The records themselves are modelled as values. `readIndex` is a function from the index path to the entries or an error.
- `updated` (`time.Now()`) is a parameter of the model.
- `main`'s `panic` and `log.Fatalf` are not modelled as process exits. A panic is the `Panicked` run, and `log.Fatalf` is the end of the processed outcomes at the first failure. Its message prefix "error processing %s: " is not modelled. All logging and printing are left out.
- The labels and annotations maps are fixed-field datatypes. A Go map has no order, so only the key/value pairs matter.
- `encoding.RegistryV1` belongs to a library outside this repository. It is written here as "apigeeregistry/v1".
- Resolver.SortStrings: Go's `sort.Strings` is pattern-defeating quicksort. The model sorts in place with insertion sort. Only the result is specified: a sorted permutation, which for distinct keys is unique.
- Strings are sequences of characters, and Go's strings are sequences of bytes. `HasPrefix`, `HasSuffix` and `TrimSuffix` here match code points, and the order is by code point. Go matches and orders bytes. The two agree on valid UTF-8. A Linux path that is not valid UTF-8 is outside this model.
- Every resolved descriptor name (`all`, main.go:149) that no physical path ends with is silently left out of the copy plan (main.go:167-177), as the code does. The model does not fail fast on a missing match.
- Paths: `filepath.Join`, `Clean` and `Base` are modelled for '/'-separated paths only (the Unix behaviour).
