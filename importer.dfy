/**
 * describeAPI: one entry of the API index is walked for its ".proto" files,
 * compiled, and turned into a plan of copies into the spec directory and the
 * three Registry records (Spec, Version, API) with the paths they are saved at.
 * Every effect of the source is an input (the walk, the temporary directory,
 * protoc) or part of the outcome (the copies and the records to write).
 */
module Importer {
  import opened Wrappers
  import opened Strings
  import opened Paths
  import opened Walk
  import opened Protoc
  import opened Assembler
  import opened Registry
  import Resolver

  /** The checkout of the googleapis repository inside DepDir. */
  const Top := "googleapis"

  /** Where the Registry YAML and the spec files are written. */
  const Out := "apis/google.com"

  const InfoFile := "info.yaml"

  /** A record and the path it is saved at. */
  datatype Written = Written(path: string, record: Record)

  /** What describeAPI does for one entry. */
  datatype Outcome =
    | Skipped
    | Failed(error: string)
    | Described(copies: seq<Copy>, written: seq<Written>)

  /** The directory the index is read from and APIs are looked up in. */
  function Root(): string
  {
    Join([DepDir, Top])
  }

  function SpecDir(entry: ApiIndexEntry): string
  {
    Join([Out, ApiId(entry), entry.version, SpecId])
  }

  /** The records in the order they are written: Spec, Version, API. */
  function Records(entry: ApiIndexEntry, updated: string): seq<Written>
  {
    var apiID, versionID := ApiId(entry), entry.version;
    [ Written(Join([Out, apiID, versionID, SpecId, InfoFile]), SpecRecord(entry, updated)),
      Written(Join([Out, apiID, versionID, InfoFile]), VersionRecord(entry, updated)),
      Written(Join([Out, apiID, InfoFile]), ApiRecord(entry, updated)) ]
  }

  /** The outcome once the referenced files `all` are known: the copy plan and the records. */
  function Plan(entry: ApiIndexEntry, root: string, allProtos: seq<string>, all: seq<string>, updated: string): Outcome
  {
    var specDir := SpecDir(entry);
    Described(ProtoCopies(all, allProtos, specDir) +
                [ConfigCopy(Join([root, entry.directory]), specDir, entry.directory, entry.configFile)],
              Records(entry, updated))
  }

  /**
   * The outcome for one entry, given the walk of its directory under `root`,
   * the physical paths of all protos, the result of creating the temporary
   * directory, the run date and protoc.
   */
  function Describe(entry: ApiIndexEntry, root: string, allProtos: seq<string>, walk: seq<Visit>,
                    tempDir: Result<string>, updated: string, protoc: seq<string> -> ProtocRun): Outcome
  {
    match FirstError(walk)
    case Some(e) => Failed(e)
    case None =>
      if ProtosIn(walk) == [] then Skipped
      else match tempDir
        case Failure(e) => Failed(e)
        case Success(t) =>
          match Referenced(protoc(ProtocArgs(t, DepDir, Deps, ProtosIn(walk))))
          case Failure(e) => Failed(e)
          case Success(all) => Plan(entry, root, allProtos, all, updated)
  }

  /**
   * describeAPI step by step: the walk, the skip, the compilation, the copy
   * loop and the three records.
   */
  method DescribeApi(entry: ApiIndexEntry, root: string, allProtos: seq<string>, walk: seq<Visit>,
                     tempDir: Result<string>, updated: string, protoc: seq<string> -> ProtocRun)
    returns (outcome: Outcome)
    ensures outcome == Describe(entry, root, allProtos, walk, tempDir, updated, protoc)
    ensures outcome.Described? ==> |outcome.copies| >= 1 && |outcome.written| == 3
  {
    var container := Join([root, entry.directory]);
    var protos, err := WalkProtos(walk);
    if err.Some? {
      return Failed(err.value);
    }
    if |protos| == 0 {
      return Skipped;
    }
    if tempDir.Failure? {
      return Failed(tempDir.error);
    }
    var all := ReferencedProtos(protos, tempDir.value, protoc);
    if all.Failure? {
      return Failed(all.error);
    }
    var specDir := SpecDir(entry);
    var copies := PlanCopies(all.value, allProtos, specDir, container, entry.directory, entry.configFile);
    outcome := Described(copies, Records(entry, updated));
  }

  /** An entry is skipped exactly when its walk has no error and meets no ".proto" file. */
  lemma SkippedExactly(entry: ApiIndexEntry, root: string, allProtos: seq<string>, walk: seq<Visit>,
                       tempDir: Result<string>, updated: string, protoc: seq<string> -> ProtocRun)
    ensures Describe(entry, root, allProtos, walk, tempDir, updated, protoc).Skipped? <==>
      (forall i :: 0 <= i < |walk| ==> walk[i].Visited?) &&
      (forall i :: 0 <= i < |walk| ==> !IsProtoFile(walk[i]))
  {
    FirstErrorSpec(walk);
    if FirstError(walk).None? {
      NoProtos(walk);
    }
  }

  /** The first unreadable path of the walk is what describeAPI fails with. */
  lemma WalkErrorFails(entry: ApiIndexEntry, root: string, allProtos: seq<string>, walk: seq<Visit>,
                       tempDir: Result<string>, updated: string, protoc: seq<string> -> ProtocRun, i: nat)
    requires i < |walk| && walk[i].Unreadable?
    requires forall j :: 0 <= j < i ==> walk[j].Visited?
    ensures Describe(entry, root, allProtos, walk, tempDir, updated, protoc) == Failed(walk[i].error)
  {
    FirstErrorSpec(walk);
    var k :| 0 <= k < |walk| &&
      walk[k] == Unreadable(walk[k].path, FirstError(walk).value) &&
      forall j :: 0 <= j < k ==> walk[j].Visited?;
    assert !(k < i) && !(i < k);
  }

  /** A failing protoc run fails the entry with the source's message; nothing is planned. */
  lemma CompileFailureFails(entry: ApiIndexEntry, root: string, allProtos: seq<string>, walk: seq<Visit>,
                            t: string, updated: string, protoc: seq<string> -> ProtocRun)
    requires FirstError(walk).None? && ProtosIn(walk) != []
    requires protoc(ProtocArgs(t, DepDir, Deps, ProtosIn(walk))).ProtocFailed?
    ensures Describe(entry, root, allProtos, walk, Success(t), updated, protoc) ==
      Failed(CompileErrorPrefix + protoc(ProtocArgs(t, DepDir, Deps, ProtosIn(walk))).errorText)
  {
  }

  /**
   * A plan ends with the service configuration copy and writes the Spec,
   * Version and API records, in that order.
   */
  lemma PlanShape(entry: ApiIndexEntry, root: string, allProtos: seq<string>, all: seq<string>, updated: string)
    ensures var o := Plan(entry, root, allProtos, all, updated);
      o.Described? && |o.copies| >= 1 &&
      o.copies[|o.copies| - 1] ==
        ConfigCopy(Join([root, entry.directory]), SpecDir(entry), entry.directory, entry.configFile) &&
      |o.written| == 3 &&
      o.written[0].record.header.kind == "Spec" &&
      o.written[1].record.header.kind == "Version" &&
      o.written[2].record.header.kind == "API"
  {
    var o := Plan(entry, root, allProtos, all, updated);
    var pc := ProtoCopies(all, allProtos, SpecDir(entry));
    var cfg := ConfigCopy(Join([root, entry.directory]), SpecDir(entry), entry.directory, entry.configFile);
    assert o.copies == pc + [cfg];
    assert o.written == Records(entry, updated);
  }

  /** Every described outcome is the plan for the names protoc's descriptor set resolves to. */
  lemma DescribedShape(entry: ApiIndexEntry, root: string, allProtos: seq<string>, walk: seq<Visit>,
                       tempDir: Result<string>, updated: string, protoc: seq<string> -> ProtocRun)
    requires Describe(entry, root, allProtos, walk, tempDir, updated, protoc).Described?
    ensures var o := Describe(entry, root, allProtos, walk, tempDir, updated, protoc);
      |o.copies| >= 1 &&
      o.copies[|o.copies| - 1] ==
        ConfigCopy(Join([root, entry.directory]), SpecDir(entry), entry.directory, entry.configFile) &&
      |o.written| == 3 &&
      o.written[0].record.header.kind == "Spec" &&
      o.written[1].record.header.kind == "Version" &&
      o.written[2].record.header.kind == "API"
  {
    assert FirstError(walk).None?;
    assert ProtosIn(walk) != [];
    assert tempDir.Success?;
    var run := protoc(ProtocArgs(tempDir.value, DepDir, Deps, ProtosIn(walk)));
    assert Referenced(run).Success?;
    var all := Referenced(run).value;
    assert Describe(entry, root, allProtos, walk, tempDir, updated, protoc) == Plan(entry, root, allProtos, all, updated);
    PlanShape(entry, root, allProtos, all, updated);
  }

  /** The protos copied: the plan without its last entry, the configuration copy. */
  function ProtoPart(o: Outcome): seq<Copy>
    requires o.Described? && |o.copies| >= 1
  {
    o.copies[..|o.copies| - 1]
  }

  /** Once protoc has produced a descriptor set, the outcome is the plan for its resolved names. */
  lemma DescribedPlan(entry: ApiIndexEntry, root: string, allProtos: seq<string>, walk: seq<Visit>,
                      t: string, updated: string, protoc: seq<string> -> ProtocRun, names: seq<string>)
    requires FirstError(walk).None? && ProtosIn(walk) != []
    requires protoc(ProtocArgs(t, DepDir, Deps, ProtosIn(walk))) == Descriptors(names)
    ensures var o := Describe(entry, root, allProtos, walk, Success(t), updated, protoc);
      o.Described? && |o.copies| >= 1 &&
      ProtoPart(o) == ProtoCopies(Resolver.Resolved(names), allProtos, SpecDir(entry))
  {
    var pc := ProtoCopies(Resolver.Resolved(names), allProtos, SpecDir(entry));
    var cfg := ConfigCopy(Join([root, entry.directory]), SpecDir(entry), entry.directory, entry.configFile);
    assert (pc + [cfg])[..|pc|] == pc;
  }

  /**
   * Every proto copy comes from a physical path that ends with a name in the
   * descriptor set outside google/protobuf/, and goes to that name under the
   * spec directory.
   */
  lemma DescribedCopiesSound(entry: ApiIndexEntry, root: string, allProtos: seq<string>, walk: seq<Visit>,
                             t: string, updated: string, protoc: seq<string> -> ProtocRun, names: seq<string>)
    requires FirstError(walk).None? && ProtosIn(walk) != []
    requires protoc(ProtocArgs(t, DepDir, Deps, ProtosIn(walk))) == Descriptors(names)
    ensures var o := Describe(entry, root, allProtos, walk, Success(t), updated, protoc);
      o.Described? && |o.copies| >= 1 &&
      forall c :: c in ProtoPart(o) ==>
        c.src in allProtos &&
        exists n :: n in names && Resolver.Packaged(n) && HasSuffix(c.src, n) && c.dest == Join([SpecDir(entry), n])
  {
    var all := Resolver.Resolved(names);
    DescribedPlan(entry, root, allProtos, walk, t, updated, protoc, names);
    ProtoCopiesSound(all, allProtos, SpecDir(entry));
  }

  /**
   * Every name of the descriptor set outside google/protobuf/ that some
   * physical path ends with is copied, from the first such path.
   */
  lemma DescribedCopiesComplete(entry: ApiIndexEntry, root: string, allProtos: seq<string>, walk: seq<Visit>,
                                t: string, updated: string, protoc: seq<string> -> ProtocRun,
                                names: seq<string>, n: string, j: nat)
    requires FirstError(walk).None? && ProtosIn(walk) != []
    requires protoc(ProtocArgs(t, DepDir, Deps, ProtosIn(walk))) == Descriptors(names)
    requires n in names && Resolver.Packaged(n)
    requires j < |allProtos| && HasSuffix(allProtos[j], n)
    ensures var o := Describe(entry, root, allProtos, walk, Success(t), updated, protoc);
      o.Described? && |o.copies| >= 1 &&
      exists k :: 0 <= k <= j && HasSuffix(allProtos[k], n) &&
        (forall i :: 0 <= i < k ==> !HasSuffix(allProtos[i], n)) &&
        Copy(allProtos[k], Join([SpecDir(entry), n])) in ProtoPart(o)
  {
    var all := Resolver.Resolved(names);
    DescribedPlan(entry, root, allProtos, walk, t, updated, protoc, names);
    ProtoCopiesComplete(all, allProtos, SpecDir(entry), n, j);
  }

  /** The output directory is a relative path with proper segments. */
  lemma OutIsProper()
    ensures ProperPath(Out)
  {
    ProperPair("apis", "google.com");
    assert Out == "apis" + [Separator] + "google.com";
  }

  /** For proper identifiers the spec directory is apis/google.com/apiID/versionID/protos. */
  lemma SpecDirLayout(entry: ApiIndexEntry)
    requires ProperPath(ApiId(entry)) && ProperPath(entry.version)
    ensures SpecDir(entry) == Out + "/" + ApiId(entry) + "/" + entry.version + "/" + SpecId
  {
    OutIsProper();
    ProperNameIsPath(SpecId);
    var elems := [Out, ApiId(entry), entry.version, SpecId];
    JoinProper(elems);
    JoinWithFour(Out, ApiId(entry), entry.version, SpecId, [Separator]);
  }

  lemma SpecRecordPath(entry: ApiIndexEntry)
    requires ProperPath(ApiId(entry)) && ProperPath(entry.version)
    ensures Join([Out, ApiId(entry), entry.version, SpecId, InfoFile]) ==
      Out + "/" + ApiId(entry) + "/" + entry.version + "/" + SpecId + "/" + InfoFile
  {
    var id, v, sep := ApiId(entry), entry.version, [Separator];
    OutIsProper();
    ProperNameIsPath(SpecId);
    ProperNameIsPath(InfoFile);
    JoinProper([Out, id, v, SpecId, InfoFile]);
    JoinWithCons(Out, [id, v, SpecId, InfoFile], sep);
    JoinWithFour(id, v, SpecId, InfoFile, sep);
  }

  lemma VersionRecordPath(entry: ApiIndexEntry)
    requires ProperPath(ApiId(entry)) && ProperPath(entry.version)
    ensures Join([Out, ApiId(entry), entry.version, InfoFile]) == Out + "/" + ApiId(entry) + "/" + entry.version + "/" + InfoFile
  {
    var id, v := ApiId(entry), entry.version;
    OutIsProper();
    ProperNameIsPath(InfoFile);
    JoinProper([Out, id, v, InfoFile]);
    JoinWithFour(Out, id, v, InfoFile, [Separator]);
  }

  lemma ApiRecordPath(entry: ApiIndexEntry)
    requires ProperPath(ApiId(entry))
    ensures Join([Out, ApiId(entry), InfoFile]) == Out + "/" + ApiId(entry) + "/" + InfoFile
  {
    var id, sep := ApiId(entry), [Separator];
    OutIsProper();
    ProperNameIsPath(InfoFile);
    JoinProper([Out, id, InfoFile]);
    JoinWithCons(Out, [id, InfoFile], sep);
    JoinWithCons(id, [InfoFile], sep);
  }

  /**
   * For proper identifiers the Spec record is saved in the spec directory,
   * the Version record in the version's directory above it and the API
   * record in the API's directory above that.
   */
  lemma RecordsLayout(entry: ApiIndexEntry, updated: string)
    requires ProperPath(ApiId(entry)) && ProperPath(entry.version)
    ensures var w := Records(entry, updated);
      w[0].path == SpecDir(entry) + "/" + InfoFile &&
      w[1].path == Out + "/" + ApiId(entry) + "/" + entry.version + "/" + InfoFile &&
      w[2].path == Out + "/" + ApiId(entry) + "/" + InfoFile
  {
    SpecRecordPath(entry);
    SpecDirLayout(entry);
    VersionRecordPath(entry);
    ApiRecordPath(entry);
  }

  /** The directory the index is read from and the APIs are walked under is deps/googleapis. */
  lemma RootIs()
    ensures Root() == "deps/googleapis"
    ensures ProperPath(Root())
  {
    ProperNameIsPath(DepDir);
    ProperNameIsPath(Top);
    JoinTwo(DepDir, Top);
  }

  /** The index is read from deps/googleapis/api-index-v1.json. */
  lemma IndexPathIs()
    ensures IndexPath() == "deps/googleapis/api-index-v1.json"
  {
    RootIs();
    ProperNameIsPath(IndexFile);
    JoinTwo(Root(), IndexFile);
  }

  /** An entry with a proper directory is walked at deps/googleapis/directory. */
  lemma ContainerUnderRoot(directory: string)
    requires ProperPath(directory)
    ensures Join([Root(), directory]) == "deps/googleapis/" + directory
  {
    RootIs();
    JoinTwo(Root(), directory);
  }

  /** The index file inside the root (readIndex). */
  const IndexFile := "api-index-v1.json"

  function IndexPath(): string
  {
    Join([Root(), IndexFile])
  }

  /** How a run of the program ends. */
  datatype Run =
    | Panicked(error: string)
    | Processed(outcomes: seq<Outcome>)

  /**
   * describeAPI for the k-th entry of the index: under Root(), with the walk
   * of its directory there and the k-th temporary directory.
   */
  function EntryOutcome(entries: seq<ApiIndexEntry>, k: nat, allProtos: seq<string>,
                        walkOf: string -> seq<Visit>, tempDirs: nat -> Result<string>,
                        updated: string, protoc: seq<string> -> ProtocRun): Outcome
    requires k < |entries|
  {
    Describe(entries[k], Root(), allProtos, walkOf(Join([Root(), entries[k].directory])), tempDirs(k), updated, protoc)
  }

  /** describeAPI for every entry of the index, in index order. */
  function EntryOutcomes(entries: seq<ApiIndexEntry>, allProtos: seq<string>,
                         walkOf: string -> seq<Visit>, tempDirs: nat -> Result<string>,
                         updated: string, protoc: seq<string> -> ProtocRun): (r: seq<Outcome>)
    ensures |r| == |entries|
    ensures forall k :: 0 <= k < |entries| ==> r[k] == EntryOutcome(entries, k, allProtos, walkOf, tempDirs, updated, protoc)
  {
    seq(|entries|, k requires 0 <= k < |entries| => EntryOutcome(entries, k, allProtos, walkOf, tempDirs, updated, protoc))
  }

  /** The outcomes up to and including the first failure, where main stops with log.Fatalf. */
  function UntilFailure(os: seq<Outcome>): seq<Outcome>
  {
    if os == [] then []
    else if os[0].Failed? then [os[0]]
    else [os[0]] + UntilFailure(os[1..])
  }

  /**
   * What is processed is a prefix of the outcomes with no failure before its
   * end; it stops short of the whole sequence exactly at a failure.
   */
  lemma {:induction false} UntilFailureSpec(os: seq<Outcome>)
    ensures var r := UntilFailure(os);
      |r| <= |os| && r == os[..|r|] &&
      (forall j :: 0 <= j < |r| - 1 ==> !r[j].Failed?) &&
      (|r| < |os| ==> |r| >= 1 && r[|r| - 1].Failed?)
  {
    if os != [] && !os[0].Failed? {
      UntilFailureSpec(os[1..]);
      var rest := UntilFailure(os[1..]);
      assert os[..|rest| + 1] == [os[0]] + os[1..][..|rest|];
      assert forall j :: 1 <= j < |rest| + 1 ==> ([os[0]] + rest)[j] == rest[j - 1];
    }
  }

  /** Once the first k outcomes are not failures, what is processed is those k and the rest from k on. */
  lemma {:induction false} UntilFailureFrom(os: seq<Outcome>, k: nat)
    requires k <= |os|
    requires forall j :: 0 <= j < k ==> !os[j].Failed?
    ensures UntilFailure(os) == os[..k] + UntilFailure(os[k..])
  {
    if k > 0 {
      assert !os[0].Failed?;
      UntilFailureFrom(os[1..], k - 1);
      assert os[1..][k - 1..] == os[k..];
      assert os[..k] == [os[0]] + os[1..][..k - 1];
    }
  }

  /**
   * main: fetching the dependencies, listing every proto under DepDir and
   * reading the index each panic on failure; then the entries are described
   * in index order until one fails.
   */
  function Import(fetchError: Option<string>, walkOf: string -> seq<Visit>,
                  readIndex: string -> Result<seq<ApiIndexEntry>>, tempDirs: nat -> Result<string>,
                  updated: string, protoc: seq<string> -> ProtocRun): Run
  {
    if fetchError.Some? then Panicked(fetchError.value)
    else match FirstError(walkOf(DepDir))
      case Some(e) => Panicked(e)
      case None =>
        match readIndex(IndexPath())
        case Failure(e) => Panicked(e)
        case Success(entries) =>
          Processed(UntilFailure(EntryOutcomes(entries, ProtosIn(walkOf(DepDir)), walkOf, tempDirs, updated, protoc)))
  }

  /** One more outcome: a failure completes what is processed, anything else extends the prefix. */
  lemma UntilFailureStep(os: seq<Outcome>, k: nat, done: seq<Outcome>)
    requires k < |os| && done == os[..k]
    requires forall j :: 0 <= j < k ==> !os[j].Failed?
    ensures os[k].Failed? ==> done + [os[k]] == UntilFailure(os)
    ensures !os[k].Failed? ==> done + [os[k]] == os[..k + 1] && forall j :: 0 <= j < k + 1 ==> !os[j].Failed?
  {
    assert os[..k + 1] == os[..k] + [os[k]];
    if os[k].Failed? {
      UntilFailureFrom(os, k);
      assert os[k..][0] == os[k];
    }
  }

  /** describeAPI for the k-th entry, whose directory is walked under `root`. */
  method DescribeEntry(entries: seq<ApiIndexEntry>, k: nat, root: string, allProtos: seq<string>,
                       walkOf: string -> seq<Visit>, tempDirs: nat -> Result<string>,
                       updated: string, protoc: seq<string> -> ProtocRun)
    returns (o: Outcome)
    requires k < |entries| && root == Root()
    ensures o == EntryOutcome(entries, k, allProtos, walkOf, tempDirs, updated, protoc)
  {
    var container := Join([root, entries[k].directory]);
    o := DescribeApi(entries[k], root, allProtos, walkOf(container), tempDirs(k), updated, protoc);
  }

  /** main's loop over the index: each entry is described under `root`, and the first failure ends the run. */
  method DescribeEntries(entries: seq<ApiIndexEntry>, root: string, allProtos: seq<string>,
                         walkOf: string -> seq<Visit>, tempDirs: nat -> Result<string>,
                         updated: string, protoc: seq<string> -> ProtocRun)
    returns (outcomes: seq<Outcome>)
    requires root == Root()
    ensures outcomes == UntilFailure(EntryOutcomes(entries, allProtos, walkOf, tempDirs, updated, protoc))
  {
    ghost var os := EntryOutcomes(entries, allProtos, walkOf, tempDirs, updated, protoc);
    outcomes := [];
    for k := 0 to |entries|
      invariant outcomes == os[..k]
      invariant forall j :: 0 <= j < k ==> !os[j].Failed?
    {
      var o := DescribeEntry(entries, k, root, allProtos, walkOf, tempDirs, updated, protoc);
      UntilFailureStep(os, k, outcomes);
      if o.Failed? {
        return outcomes + [o];
      }
      outcomes := outcomes + [o];
    }
    UntilFailureFrom(os, |entries|);
    assert os[..|entries|] == os;
  }

  /** main step by step: the three panicking steps, then the loop over the index. */
  method ImportApis(fetchError: Option<string>, walkOf: string -> seq<Visit>,
                    readIndex: string -> Result<seq<ApiIndexEntry>>, tempDirs: nat -> Result<string>,
                    updated: string, protoc: seq<string> -> ProtocRun)
    returns (run: Run)
    ensures run == Import(fetchError, walkOf, readIndex, tempDirs, updated, protoc)
  {
    if fetchError.Some? {
      return Panicked(fetchError.value);
    }
    var allProtos, err := WalkProtos(walkOf(DepDir));
    if err.Some? {
      return Panicked(err.value);
    }
    var root := Root();
    var index := readIndex(Join([root, IndexFile]));
    if index.Failure? {
      return Panicked(index.error);
    }
    var outcomes := DescribeEntries(index.value, root, allProtos, walkOf, tempDirs, updated, protoc);
    return Processed(outcomes);
  }

  /**
   * The program gets past its three panicking steps exactly when the fetch,
   * the listing of DepDir and the reading of the index all succeed; it then
   * describes the index entries in order, under deps/googleapis, with every
   * proto under DepDir as the physical paths, and stops at the first failure.
   */
  lemma ImportProcesses(fetchError: Option<string>, walkOf: string -> seq<Visit>,
                        readIndex: string -> Result<seq<ApiIndexEntry>>, tempDirs: nat -> Result<string>,
                        updated: string, protoc: seq<string> -> ProtocRun)
    ensures var run := Import(fetchError, walkOf, readIndex, tempDirs, updated, protoc);
      run.Processed? <==>
        fetchError.None? && FirstError(walkOf(DepDir)).None? && readIndex(IndexPath()).Success?
    ensures var run := Import(fetchError, walkOf, readIndex, tempDirs, updated, protoc);
      run.Processed? ==>
        var entries, r := readIndex(IndexPath()).value, run.outcomes;
        |r| <= |entries| &&
        (forall j :: 0 <= j < |r| ==>
          r[j] == Describe(entries[j], "deps/googleapis", ProtosIn(walkOf(DepDir)),
                           walkOf(Join(["deps/googleapis", entries[j].directory])), tempDirs(j), updated, protoc)) &&
        (forall j :: 0 <= j < |r| - 1 ==> !r[j].Failed?) &&
        (|r| < |entries| ==> |r| >= 1 && r[|r| - 1].Failed?)
  {
    RootIs();
    var run := Import(fetchError, walkOf, readIndex, tempDirs, updated, protoc);
    if run.Processed? {
      var entries := readIndex(IndexPath()).value;
      var os := EntryOutcomes(entries, ProtosIn(walkOf(DepDir)), walkOf, tempDirs, updated, protoc);
      UntilFailureSpec(os);
      var r := UntilFailure(os);
      forall j | 0 <= j < |r|
        ensures r[j] == EntryOutcome(entries, j, ProtosIn(walkOf(DepDir)), walkOf, tempDirs, updated, protoc)
      {
        assert r[j] == os[j];
      }
    }
  }
}
