/**
 * The collection of the resolved files into the spec directory and the copy
 * of the service configuration. Nothing is copied here: the result is the
 * list of (source, destination) copies, in the order the source performs them.
 */
module Assembler {
  import opened Wrappers
  import opened Strings
  import opened Paths

  datatype Copy = Copy(src: string, dest: string)

  /** The position of the first physical path that ends with the logical path `a`. */
  function FirstSuffixMatch(allProtos: seq<string>, a: string): (r: Option<nat>)
    ensures r.Some? ==> r.value < |allProtos|
  {
    if allProtos == [] then None
    else if HasSuffix(allProtos[0], a) then Some(0)
    else match FirstSuffixMatch(allProtos[1..], a)
      case None => None
      case Some(k) => Some(k + 1)
  }

  /** The match found is the first path ending with `a`; there is none exactly when no path does. */
  lemma {:induction false} FirstSuffixMatchSpec(allProtos: seq<string>, a: string)
    ensures var r := FirstSuffixMatch(allProtos, a);
      (r.Some? ==>
        r.value < |allProtos| && HasSuffix(allProtos[r.value], a) &&
        forall j :: 0 <= j < r.value ==> !HasSuffix(allProtos[j], a)) &&
      (r.None? <==> forall j :: 0 <= j < |allProtos| ==> !HasSuffix(allProtos[j], a))
  {
    if allProtos != [] && !HasSuffix(allProtos[0], a) {
      FirstSuffixMatchSpec(allProtos[1..], a);
      assert forall j :: 1 <= j < |allProtos| ==> allProtos[j] == allProtos[1..][j - 1];
    }
  }

  /** What is planned for one logical path: its first match copied to specDir/a, or nothing. */
  function CopiesFor(a: string, allProtos: seq<string>, specDir: string): seq<Copy>
  {
    match FirstSuffixMatch(allProtos, a)
    case None => []
    case Some(k) => [Copy(allProtos[k], Join([specDir, a]))]
  }

  function ProtoCopies(all: seq<string>, allProtos: seq<string>, specDir: string): seq<Copy>
  {
    if all == [] then []
    else ProtoCopies(all[..|all| - 1], allProtos, specDir) + CopiesFor(all[|all| - 1], allProtos, specDir)
  }

  /** The service configuration goes from the API's directory to the same relative place under specDir. */
  function ConfigCopy(container: string, specDir: string, directory: string, configFile: string): Copy
  {
    Copy(Join([container, configFile]), Join([specDir, directory, configFile]))
  }

  /**
   * The nested loop of describeAPI: for each resolved path, the first
   * physical path with it as a suffix is copied and the search stops; then
   * the service configuration is copied.
   */
  method PlanCopies(all: seq<string>, allProtos: seq<string>, specDir: string,
                    container: string, directory: string, configFile: string)
    returns (plan: seq<Copy>)
    ensures plan == ProtoCopies(all, allProtos, specDir) + [ConfigCopy(container, specDir, directory, configFile)]
  {
    plan := [];
    for i := 0 to |all|
      invariant plan == ProtoCopies(all[..i], allProtos, specDir)
    {
      var a := all[i];
      assert all[..i + 1][..i] == all[..i];
      var j := 0;
      while j < |allProtos|
        invariant 0 <= j <= |allProtos|
        invariant forall k :: 0 <= k < j ==> !HasSuffix(allProtos[k], a)
        invariant plan == ProtoCopies(all[..i], allProtos, specDir)
      {
        var p := allProtos[j];
        if HasSuffix(p, a) {
          FirstSuffixMatchSpec(allProtos, a);
          assert FirstSuffixMatch(allProtos, a) == Some(j);
          plan := plan + [Copy(p, Join([specDir, a]))];
          break;
        }
        j := j + 1;
      }
      FirstSuffixMatchSpec(allProtos, a);
      assert plan == ProtoCopies(all[..i + 1], allProtos, specDir);
    }
    assert all[..|all|] == all;
    var serviceConfigPath := Join([container, configFile]);
    var localPath := Join([specDir, directory, configFile]);
    plan := plan + [Copy(serviceConfigPath, localPath)];
  }

  /** Each logical path contributes its own copies, in order. */
  lemma {:induction false} ProtoCopiesAppend(xs: seq<string>, ys: seq<string>, allProtos: seq<string>, specDir: string)
    ensures ProtoCopies(xs + ys, allProtos, specDir) == ProtoCopies(xs, allProtos, specDir) + ProtoCopies(ys, allProtos, specDir)
  {
    if ys == [] {
      assert xs + ys == xs;
    } else {
      var init := ys[..|ys| - 1];
      assert (xs + ys)[..|xs + ys| - 1] == xs + init;
      ProtoCopiesAppend(xs, init, allProtos, specDir);
    }
  }

  /** A logical path with no physical match is silently left out of the plan. */
  lemma UnmatchedOmitted(xs: seq<string>, a: string, ys: seq<string>, allProtos: seq<string>, specDir: string)
    requires FirstSuffixMatch(allProtos, a).None?
    ensures ProtoCopies(xs + [a] + ys, allProtos, specDir) == ProtoCopies(xs + ys, allProtos, specDir)
  {
    ProtoCopiesAppend(xs + [a], ys, allProtos, specDir);
    ProtoCopiesAppend(xs, [a], allProtos, specDir);
    ProtoCopiesAppend(xs, ys, allProtos, specDir);
    assert [a][..0] == [];
    var px := ProtoCopies(xs, allProtos, specDir);
    assert ProtoCopies([a], allProtos, specDir) == [];
    assert ProtoCopies(xs + [a], allProtos, specDir) == px + [];
    assert px + [] == px;
  }

  /**
   * One logical path gets one copy, from the first physical path that ends
   * with it to specDir/a, when some physical path does, and none otherwise.
   */
  lemma CopiesForSpec(a: string, allProtos: seq<string>, specDir: string)
    ensures CopiesFor(a, allProtos, specDir) == [] <==> forall j :: 0 <= j < |allProtos| ==> !HasSuffix(allProtos[j], a)
    ensures CopiesFor(a, allProtos, specDir) != [] ==>
      exists k :: 0 <= k < |allProtos| &&
        HasSuffix(allProtos[k], a) && (forall j :: 0 <= j < k ==> !HasSuffix(allProtos[j], a)) &&
        CopiesFor(a, allProtos, specDir) == [Copy(allProtos[k], Join([specDir, a]))]
  {
    FirstSuffixMatchSpec(allProtos, a);
  }

  /** The plan holds a copy exactly when one of the logical paths contributes it. */
  lemma {:induction false} ProtoCopiesMembers(all: seq<string>, allProtos: seq<string>, specDir: string, c: Copy)
    ensures c in ProtoCopies(all, allProtos, specDir) <==>
      exists i :: 0 <= i < |all| && c in CopiesFor(all[i], allProtos, specDir)
  {
    if all != [] {
      var init := all[..|all| - 1];
      ProtoCopiesMembers(init, allProtos, specDir, c);
      assert forall i :: 0 <= i < |init| ==> init[i] == all[i];
    }
  }

  /** When every logical path has a match, the i-th copy is that of the i-th path. */
  lemma {:induction false} ProtoCopiesAllFound(all: seq<string>, allProtos: seq<string>, specDir: string)
    requires forall i :: 0 <= i < |all| ==> FirstSuffixMatch(allProtos, all[i]).Some?
    ensures |ProtoCopies(all, allProtos, specDir)| == |all|
    ensures forall i :: 0 <= i < |all| ==>
      ProtoCopies(all, allProtos, specDir)[i] ==
        Copy(allProtos[FirstSuffixMatch(allProtos, all[i]).value], Join([specDir, all[i]]))
  {
    if all != [] {
      var init, last := all[..|all| - 1], all[|all| - 1];
      assert forall i :: 0 <= i < |init| ==> init[i] == all[i];
      ProtoCopiesAllFound(init, allProtos, specDir);
      var pc := ProtoCopies(init, allProtos, specDir);
      var c := Copy(allProtos[FirstSuffixMatch(allProtos, last).value], Join([specDir, last]));
      assert ProtoCopies(all, allProtos, specDir) == pc + [c];
      forall i | 0 <= i < |all|
        ensures (pc + [c])[i] == Copy(allProtos[FirstSuffixMatch(allProtos, all[i]).value], Join([specDir, all[i]]))
      {
        if i < |init| {
          assert all[i] == init[i];
        }
      }
    }
  }

  /** Every planned copy is from a physical path ending with a logical path `n`, to specDir/n. */
  lemma ProtoCopiesSound(all: seq<string>, allProtos: seq<string>, specDir: string)
    ensures forall c :: c in ProtoCopies(all, allProtos, specDir) ==>
      c.src in allProtos &&
      exists n :: n in all && HasSuffix(c.src, n) && c.dest == Join([specDir, n])
  {
    forall c | c in ProtoCopies(all, allProtos, specDir)
      ensures c.src in allProtos && exists n :: n in all && HasSuffix(c.src, n) && c.dest == Join([specDir, n])
    {
      ProtoCopiesMembers(all, allProtos, specDir, c);
      var i :| 0 <= i < |all| && c in CopiesFor(all[i], allProtos, specDir);
      var n := all[i];
      CopiesForSpec(n, allProtos, specDir);
      var k :| 0 <= k < |allProtos| &&
        HasSuffix(allProtos[k], n) && (forall j :: 0 <= j < k ==> !HasSuffix(allProtos[j], n)) &&
        CopiesFor(n, allProtos, specDir) == [Copy(allProtos[k], Join([specDir, n]))];
      assert c == Copy(allProtos[k], Join([specDir, n]));
    }
  }

  /** A logical path that some physical path ends with is copied from the first such path. */
  lemma ProtoCopiesComplete(all: seq<string>, allProtos: seq<string>, specDir: string, n: string, j: nat)
    requires n in all
    requires j < |allProtos| && HasSuffix(allProtos[j], n)
    ensures
      exists k :: 0 <= k <= j && HasSuffix(allProtos[k], n) &&
        (forall i :: 0 <= i < k ==> !HasSuffix(allProtos[i], n)) &&
        Copy(allProtos[k], Join([specDir, n])) in ProtoCopies(all, allProtos, specDir)
  {
    var i :| 0 <= i < |all| && all[i] == n;
    CopiesForSpec(n, allProtos, specDir);
    var k :| 0 <= k < |allProtos| &&
      HasSuffix(allProtos[k], n) && (forall j :: 0 <= j < k ==> !HasSuffix(allProtos[j], n)) &&
      CopiesFor(n, allProtos, specDir) == [Copy(allProtos[k], Join([specDir, n]))];
    var c := Copy(allProtos[k], Join([specDir, n]));
    assert c in CopiesFor(all[i], allProtos, specDir);
    ProtoCopiesMembers(all, allProtos, specDir, c);
    assert k <= j;
  }
}
