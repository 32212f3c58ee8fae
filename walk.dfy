/**
 * The directory walks of listAllProtos and describeAPI: filepath.Walk with a
 * callback that stops at the first error it is handed, skips directories and
 * keeps every other path that ends in ".proto". The walk itself is given as
 * the sequence of visits filepath.Walk would make.
 */
module Walk {
  import opened Wrappers
  import opened Strings

  const ProtoSuffix := ".proto"

  /** What filepath.Walk hands its callback for one path. */
  datatype Visit = Visited(path: string, isDir: bool) | Unreadable(path: string, error: string)

  predicate IsProtoFile(v: Visit)
  {
    v.Visited? && !v.isDir && HasSuffix(v.path, ProtoSuffix)
  }

  /** The error that ends the walk: the callback returns the first one it is handed. */
  function FirstError(walk: seq<Visit>): Option<string>
  {
    if walk == [] then None
    else match walk[0]
      case Unreadable(_, e) => Some(e)
      case Visited(_, _) => FirstError(walk[1..])
  }

  /** The walk ends in an error exactly when some path was unreadable, and it is the first one's error. */
  lemma {:induction false} FirstErrorSpec(walk: seq<Visit>)
    ensures FirstError(walk).None? <==> forall i :: 0 <= i < |walk| ==> walk[i].Visited?
    ensures FirstError(walk).Some? ==>
      exists i :: 0 <= i < |walk| &&
        walk[i] == Unreadable(walk[i].path, FirstError(walk).value) &&
        forall j :: 0 <= j < i ==> walk[j].Visited?
  {
    if walk != [] && walk[0].Visited? {
      FirstErrorSpec(walk[1..]);
      assert forall i :: 1 <= i < |walk| ==> walk[i] == walk[1..][i - 1];
      if FirstError(walk).Some? {
        var i :| 0 <= i < |walk[1..]| &&
          walk[1..][i] == Unreadable(walk[1..][i].path, FirstError(walk).value) &&
          forall j :: 0 <= j < i ==> walk[1..][j].Visited?;
        assert walk[i + 1] == walk[1..][i];
      }
    }
  }

  /** What the callback appends for one visit. */
  function Kept(v: Visit): seq<string>
  {
    if IsProtoFile(v) then [v.path] else []
  }

  /** The ".proto" files collected before the walk ends. */
  function ProtosIn(walk: seq<Visit>): seq<string>
  {
    if walk == [] || walk[0].Unreadable? then []
    else Kept(walk[0]) + ProtosIn(walk[1..])
  }

  /**
   * The callback appends to `protos` as in the source; on an error Walk stops
   * and the list gathered so far is returned beside the error.
   */
  method WalkProtos(walk: seq<Visit>) returns (protos: seq<string>, err: Option<string>)
    ensures protos == ProtosIn(walk)
    ensures err == FirstError(walk)
  {
    protos := [];
    var i := 0;
    while i < |walk|
      invariant 0 <= i <= |walk|
      invariant ProtosIn(walk) == protos + ProtosIn(walk[i..])
      invariant FirstError(walk) == FirstError(walk[i..])
    {
      assert walk[i..][1..] == walk[i + 1..];
      match walk[i]
      case Unreadable(_, e) =>
        assert ProtosIn(walk[i..]) == [];
        return protos, Some(e);
      case Visited(p, isDir) =>
        if !isDir && HasSuffix(p, ProtoSuffix) {
          protos := protos + [p];
        }
      i := i + 1;
    }
    assert walk[i..] == [];
    err := None;
  }

  /** Collection keeps the order of the walk. */
  lemma {:induction false} ProtosInAppend(a: seq<Visit>, b: seq<Visit>)
    requires FirstError(a).None?
    ensures ProtosIn(a + b) == ProtosIn(a) + ProtosIn(b)
  {
    if a == [] {
      assert a + b == b;
    } else {
      var ab := a + b;
      assert ab[0] == a[0] && a[0].Visited?;
      assert ab[1..] == a[1..] + b;
      ProtosInAppend(a[1..], b);
      var h := Kept(a[0]);
      assert h + (ProtosIn(a[1..]) + ProtosIn(b)) == h + ProtosIn(a[1..]) + ProtosIn(b);
    }
  }

  /** A walk without errors yields exactly the visited non-directory paths ending in ".proto". */
  lemma {:induction false} ProtosInExactly(walk: seq<Visit>, p: string)
    requires FirstError(walk).None?
    ensures p in ProtosIn(walk) <==> exists i :: 0 <= i < |walk| && walk[i] == Visited(p, false) && HasSuffix(p, ProtoSuffix)
  {
    if walk != [] {
      FirstErrorSpec(walk);
      ProtosInExactly(walk[1..], p);
      if p in ProtosIn(walk[1..]) {
        var i :| 0 <= i < |walk[1..]| && walk[1..][i] == Visited(p, false) && HasSuffix(p, ProtoSuffix);
        assert walk[i + 1] == Visited(p, false);
      }
      if exists i :: 0 <= i < |walk| && walk[i] == Visited(p, false) && HasSuffix(p, ProtoSuffix) {
        var i :| 0 <= i < |walk| && walk[i] == Visited(p, false) && HasSuffix(p, ProtoSuffix);
        if i > 0 {
          assert walk[1..][i - 1] == Visited(p, false);
        }
      }
    }
  }

  /** With no error, describeAPI's "no protos" case is exactly a walk that met no ".proto" file. */
  lemma NoProtos(walk: seq<Visit>)
    requires FirstError(walk).None?
    ensures ProtosIn(walk) == [] <==> forall i :: 0 <= i < |walk| ==> !IsProtoFile(walk[i])
  {
    if ProtosIn(walk) != [] {
      var p := ProtosIn(walk)[0];
      ProtosInExactly(walk, p);
      var i :| 0 <= i < |walk| && walk[i] == Visited(p, false) && HasSuffix(p, ProtoSuffix);
      assert IsProtoFile(walk[i]);
    }
    if exists i :: 0 <= i < |walk| && IsProtoFile(walk[i]) {
      var i :| 0 <= i < |walk| && IsProtoFile(walk[i]);
      ProtosInExactly(walk, walk[i].path);
      assert walk[i] == Visited(walk[i].path, false);
    }
  }
}
