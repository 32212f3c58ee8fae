/**
 * referencedProtos: the protoc command line (an output flag, the request for
 * the whole import closure, one "-I" directory per cloned repository, then
 * the root files) and what becomes of protoc's outcome. protoc itself, with
 * the reading and decoding of the descriptor set it writes, is the oracle
 * `protoc`; the fresh temporary directory is the parameter `tempDir`.
 */
module Protoc {
  import opened Wrappers
  import opened Strings
  import opened Paths
  import Resolver

  /** Where the source repositories are cloned (`dir`). */
  const DepDir := "deps"

  /** The source repositories (`deps`). */
  const Deps: seq<string> := ["https://github.com/googleapis/googleapis"]

  const CompileErrorPrefix := "failed to compile protos with protoc: "

  /**
   * What running protoc and then reading its output file can give. A run
   * fails when CombinedOutput returns an error: protoc could not be started
   * or exited unsuccessfully; `errorText` is that error's text.
   */
  datatype ProtocRun =
    | ProtocFailed(output: string, errorText: string)
    | DescriptorUnreadable(error: string)
    | Descriptors(fileNames: seq<string>)

  /** The include directory for one repository: its clone under `dir`, with ';' turned into '/'. */
  function IncludeDir(dir: string, dep: string): string
  {
    ReplaceChar(Join([dir, Base(dep)]), ';', '/')
  }

  function ImportFlags(dir: string, deps: seq<string>): seq<string>
  {
    if deps == [] then []
    else ImportFlags(dir, deps[..|deps| - 1]) + ["-I", IncludeDir(dir, deps[|deps| - 1])]
  }

  function ProtocArgs(tempDir: string, dir: string, deps: seq<string>, protos: seq<string>): seq<string>
  {
    ["-o", tempDir + "/proto.pb", "--include_imports"] + ImportFlags(dir, deps) + protos
  }

  /** The result of referencedProtos for one run of protoc. */
  function Referenced(run: ProtocRun): Result<seq<string>>
  {
    match run
    case ProtocFailed(_, errorText) => Failure(CompileErrorPrefix + errorText)
    case DescriptorUnreadable(e) => Failure(e)
    case Descriptors(names) => Success(Resolver.Resolved(names))
  }

  lemma {:induction false} ImportFlagsLayout(dir: string, deps: seq<string>)
    ensures |ImportFlags(dir, deps)| == 2 * |deps|
    ensures forall k :: 0 <= k < |deps| ==>
      ImportFlags(dir, deps)[2 * k] == "-I" && ImportFlags(dir, deps)[2 * k + 1] == IncludeDir(dir, deps[k])
  {
    if deps != [] {
      var init := deps[..|deps| - 1];
      ImportFlagsLayout(dir, init);
      forall k | 0 <= k < |deps|
        ensures ImportFlags(dir, deps)[2 * k] == "-I" && ImportFlags(dir, deps)[2 * k + 1] == IncludeDir(dir, deps[k])
      {
        if k < |init| {
          assert deps[k] == init[k];
        }
      }
    }
  }

  /**
   * The argument list has 3 + 2 * |deps| + |protos| entries: "-o" and the
   * output file, "--include_imports", a ("-I", directory) pair per repository
   * in order, then the root files unchanged and in order.
   */
  lemma ProtocArgsLayout(tempDir: string, dir: string, deps: seq<string>, protos: seq<string>)
    ensures |ProtocArgs(tempDir, dir, deps, protos)| == 3 + 2 * |deps| + |protos|
    ensures ProtocArgs(tempDir, dir, deps, protos)[..3] == ["-o", tempDir + "/proto.pb", "--include_imports"]
    ensures forall k :: 0 <= k < |deps| ==>
      ProtocArgs(tempDir, dir, deps, protos)[3 + 2 * k] == "-I" &&
      ProtocArgs(tempDir, dir, deps, protos)[4 + 2 * k] == IncludeDir(dir, deps[k])
    ensures ProtocArgs(tempDir, dir, deps, protos)[3 + 2 * |deps|..] == protos
  {
    ImportFlagsLayout(dir, deps);
    var args := ProtocArgs(tempDir, dir, deps, protos);
    var flags := ImportFlags(dir, deps);
    forall k | 0 <= k < |deps|
      ensures args[3 + 2 * k] == "-I" && args[4 + 2 * k] == IncludeDir(dir, deps[k])
    {
      assert args[3 + 2 * k] == flags[2 * k];
      assert args[4 + 2 * k] == flags[2 * k + 1];
    }
  }

  lemma BaseOfConfiguredDep()
    ensures Base(Deps[0]) == "googleapis"
  {
    assert Deps[0] == "https://github.com/googleapis" + [Separator] + "googleapis";
    BaseOf("https://github.com/googleapis", "googleapis");
  }

  /** A repository whose base name is a proper path has its clone directory dir/name as include directory. */
  lemma IncludeDirOf(dir: string, dep: string, name: string)
    requires Base(dep) == name && ProperPath(dir) && ProperPath(name)
    requires ';' !in dir + "/" + name
    ensures IncludeDir(dir, dep) == dir + "/" + name
  {
    JoinTwo(dir, name);
    ReplaceCharAbsent(dir + "/" + name, ';', '/');
  }

  lemma ConfiguredIncludeDir()
    ensures IncludeDir(DepDir, Deps[0]) == "deps/googleapis"
  {
    BaseOfConfiguredDep();
    ProperNameIsPath("deps");
    ProperNameIsPath("googleapis");
    assert ';' !in "deps/googleapis";
    assert "deps" + "/" + "googleapis" == "deps/googleapis";
    IncludeDirOf(DepDir, Deps[0], "googleapis");
  }

  lemma SingleDepArgs(tempDir: string, dir: string, dep: string, protos: seq<string>)
    ensures ProtocArgs(tempDir, dir, [dep], protos)
      == ["-o", tempDir + "/proto.pb", "--include_imports", "-I", IncludeDir(dir, dep)] + protos
  {
    assert [dep][..0] == [];
    assert ImportFlags(dir, [dep]) == ["-I", IncludeDir(dir, dep)];
    var head := ["-o", tempDir + "/proto.pb", "--include_imports"];
    assert head + ["-I", IncludeDir(dir, dep)] == head + ["-I"] + [IncludeDir(dir, dep)];
  }

  /** With the repositories configured here, the only include directory is "deps/googleapis". */
  lemma ConfiguredArgs(tempDir: string, protos: seq<string>)
    ensures ProtocArgs(tempDir, DepDir, Deps, protos)
      == ["-o", tempDir + "/proto.pb", "--include_imports", "-I", "deps/googleapis"] + protos
  {
    ConfiguredIncludeDir();
    SingleDepArgs(tempDir, DepDir, Deps[0], protos);
  }

  /**
   * Builds the argument list as the source does, runs the oracle on it and
   * turns its outcome into the resolved file list or an error.
   */
  method ReferencedProtos(protos: seq<string>, tempDir: string, protoc: seq<string> -> ProtocRun)
    returns (r: Result<seq<string>>)
    ensures r == Referenced(protoc(ProtocArgs(tempDir, DepDir, Deps, protos)))
    ensures r.Success? ==> Resolver.StrictlySorted(r.value)
  {
    var args := ["-o", tempDir + "/proto.pb", "--include_imports"];
    var imports: seq<string> := [];
    for k := 0 to |Deps|
      invariant imports == ImportFlags(DepDir, Deps[..k])
    {
      var d := Deps[k];
      imports := imports + ["-I"];
      imports := imports + [ReplaceChar(Join([DepDir, Base(d)]), ';', '/')];
      assert Deps[..k + 1][..k] == Deps[..k];
    }
    assert Deps[..|Deps|] == Deps;
    args := args + imports;
    args := args + protos;
    match protoc(args)
    case ProtocFailed(_, errorText) =>
      r := Failure(CompileErrorPrefix + errorText);
    case DescriptorUnreadable(e) =>
      r := Failure(e);
    case Descriptors(names) =>
      var filenames := Resolver.ProtosFromFileDescriptorSet(names);
      r := Success(filenames);
  }
}
