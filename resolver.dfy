/**
 * protosFromFileDescriptorSet: the logical names of the files in the compiled
 * description, without the well-known "google/protobuf/" files, each once,
 * in sorted order. The descriptor set is given as the list of its files'
 * names, in the order they appear in it.
 */
module Resolver {
  import opened Strings

  /** Files under this prefix are always available to protoc and are never packaged. */
  const WellKnownPrefix := "google/protobuf/"

  predicate Packaged(name: string)
  {
    !HasPrefix(name, WellKnownPrefix)
  }

  predicate StrictlySorted(s: seq<string>)
  {
    forall i, j :: 0 <= i < j < |s| ==> Less(s[i], s[j])
  }

  predicate Sorted(s: seq<string>)
  {
    forall i, j :: 0 <= i < j < |s| ==> LessEq(s[i], s[j])
  }

  predicate Distinct(s: seq<string>)
  {
    forall i, j :: 0 <= i < j < |s| ==> s[i] != s[j]
  }

  lemma PrependSorted(x: string, s: seq<string>)
    requires StrictlySorted(s)
    requires forall y :: y in s ==> Less(x, y)
    ensures StrictlySorted([x] + s)
  {
    forall i, j | 0 <= i < j < |[x] + s|
      ensures Less(([x] + s)[i], ([x] + s)[j])
    {
      assert ([x] + s)[j] == s[j - 1];
      if i > 0 {
        assert ([x] + s)[i] == s[i - 1];
      }
    }
  }

  lemma BelowHead(x: string, s: seq<string>)
    requires StrictlySorted(s) && s != [] && Less(x, s[0])
    ensures forall y :: y in s ==> Less(x, y)
  {
    forall y | y in s
      ensures Less(x, y)
    {
      if y != s[0] {
        LessTransitive(x, s[0], y);
      }
    }
  }

  /** The insertion of `x` into a sorted list without repetitions (a set of names kept in order). */
  function Insert(x: string, s: seq<string>): (r: seq<string>)
    requires StrictlySorted(s)
    ensures StrictlySorted(r)
    ensures forall y :: y in r <==> y == x || y in s
  {
    if s == [] then [x]
    else if x == s[0] then s
    else if Less(x, s[0]) then
      BelowHead(x, s);
      PrependSorted(x, s);
      [x] + s
    else
      LessTotal(x, s[0]);
      var r := Insert(x, s[1..]);
      assert forall y :: y in r ==> Less(s[0], y);
      PrependSorted(s[0], r);
      assert s == [s[0]] + s[1..];
      [s[0]] + r
  }

  /**
   * The resolved closure: every packaged name of `files`, once, sorted.
   * Names are taken in the order the descriptor set lists them, as the
   * source's loop does.
   */
  function Resolved(files: seq<string>): (r: seq<string>)
    ensures StrictlySorted(r)
    ensures forall n :: n in r <==> n in files && Packaged(n)
  {
    if files == [] then []
    else
      var last := files[|files| - 1];
      var rest := Resolved(files[..|files| - 1]);
      assert files == files[..|files| - 1] + [last];
      if Packaged(last) then Insert(last, rest) else rest
  }

  lemma TailMembers(s: seq<string>, x: string)
    requires StrictlySorted(s) && s != []
    ensures x in s[1..] <==> x in s && x != s[0]
  {
    if x in s[1..] {
      var i :| 0 <= i < |s[1..]| && s[1..][i] == x;
      assert Less(s[0], s[i + 1]);
      LessIrreflexive(x);
    }
    if x in s && x != s[0] {
      var i :| 0 <= i < |s| && s[i] == x;
      assert s[1..][i - 1] == x;
    }
  }

  /** A sorted list without repetitions is determined by its elements. */
  lemma {:induction false} SortedUnique(a: seq<string>, b: seq<string>)
    requires StrictlySorted(a) && StrictlySorted(b)
    requires forall x :: x in a <==> x in b
    ensures a == b
  {
    assert a != [] ==> b != [] by {
      if a != [] {
        assert a[0] in b;
      }
    }
    assert b != [] ==> a != [] by {
      if b != [] {
        assert b[0] in a;
      }
    }
    if a != [] {
      assert a[0] == b[0] by {
        assert a[0] in b && b[0] in a;
        var k :| 0 <= k < |b| && b[k] == a[0];
        var m :| 0 <= m < |a| && a[m] == b[0];
        if k != 0 && m != 0 {
          LessAsymmetric(b[0], a[0]);
          assert false;
        }
      }
      forall x
        ensures x in a[1..] <==> x in b[1..]
      {
        TailMembers(a, x);
        TailMembers(b, x);
      }
      SortedUnique(a[1..], b[1..]);
      assert a == [a[0]] + a[1..] && b == [b[0]] + b[1..];
    }
  }

  /**
   * The result depends only on which names occur, not on their order or
   * repetition.
   */
  lemma ResolvedDependsOnlyOnNames(files1: seq<string>, files2: seq<string>)
    requires forall x :: x in files1 <==> x in files2
    ensures Resolved(files1) == Resolved(files2)
  {
    SortedUnique(Resolved(files1), Resolved(files2));
  }

  /** A list that is already sorted, repetition-free and packaged is its own closure. */
  lemma ResolvedFixedPoint(files: seq<string>)
    requires StrictlySorted(files)
    requires forall i :: 0 <= i < |files| ==> Packaged(files[i])
    ensures Resolved(files) == files
  {
    SortedUnique(Resolved(files), files);
  }

  /** Resolving twice gives the same list. */
  lemma ResolvedIdempotent(files: seq<string>)
    ensures Resolved(Resolved(files)) == Resolved(files)
  {
    ResolvedFixedPoint(Resolved(files));
  }

  /** A root that imports nothing yields just itself. */
  lemma ResolvedSingleRoot(root: string)
    requires Packaged(root)
    ensures Resolved([root]) == [root]
  {
    ResolvedFixedPoint([root]);
  }

  /** The first n elements of s are in order (with repetitions allowed). */
  predicate SortedUpTo(s: seq<string>, n: int)
    requires 0 <= n <= |s|
  {
    forall p, q :: 0 <= p < q < n ==> LessEq(s[p], s[q])
  }

  /** While a[i] moves down to position j: every pair in s[..i + 1] is in order except those ending at j. */
  predicate Inserting(s: seq<string>, j: int, i: int)
    requires 0 <= j <= i < |s|
  {
    forall p, q :: 0 <= p < q <= i && q != j ==> LessEq(s[p], s[q])
  }

  lemma InsertingStart(s: seq<string>, i: int)
    requires 0 <= i < |s| && SortedUpTo(s, i)
    ensures Inserting(s, i, i)
  {
  }

  /** Swapping an out-of-order s[j] with s[j - 1] moves the gap down by one. */
  lemma InsertingSwap(s: seq<string>, j: int, i: int)
    requires 0 < j <= i < |s| && Inserting(s, j, i) && Less(s[j], s[j - 1])
    ensures Inserting(s[j - 1 := s[j]][j := s[j - 1]], j - 1, i)
    ensures multiset(s[j - 1 := s[j]][j := s[j - 1]]) == multiset(s)
  {
    var t := s[j - 1 := s[j]][j := s[j - 1]];
    forall p, q | 0 <= p < q <= i && q != j - 1
      ensures LessEq(t[p], t[q])
    {
      if q == j && p == j - 1 {
        assert LessEq(s[j], s[j - 1]);
      } else if q == j {
        assert LessEq(s[p], s[j - 1]);
      } else if p == j - 1 {
        assert LessEq(s[j], s[q]);
      } else if p == j {
        assert LessEq(s[j - 1], s[q]);
      }
    }
  }

  /** Once s[j] is not below s[j - 1], the first i + 1 elements are in order. */
  lemma InsertingDone(s: seq<string>, j: int, i: int)
    requires 0 <= j <= i < |s| && Inserting(s, j, i)
    requires j == 0 || !Less(s[j], s[j - 1])
    ensures SortedUpTo(s, i + 1)
  {
    if j > 0 {
      if s[j - 1] != s[j] {
        LessTotal(s[j - 1], s[j]);
      }
      forall p | 0 <= p < j
        ensures LessEq(s[p], s[j])
      {
        if p < j - 1 && s[p] != s[j - 1] && s[j - 1] != s[j] {
          LessTransitive(s[p], s[j - 1], s[j]);
        }
      }
    }
  }

  /** Moves a[i] down into the sorted a[..i], so that a[..i + 1] is sorted. */
  method InsertIntoPrefix(a: array<string>, i: int)
    requires 0 <= i < a.Length && SortedUpTo(a[..], i)
    modifies a
    ensures SortedUpTo(a[..], i + 1)
    ensures multiset(a[..]) == old(multiset(a[..]))
    ensures a[i + 1..] == old(a[i + 1..])
  {
    var j := i;
    InsertingStart(a[..], i);
    while j > 0 && Less(a[j], a[j - 1])
      invariant 0 <= j <= i
      invariant Inserting(a[..], j, i)
      invariant multiset(a[..]) == old(multiset(a[..]))
      invariant a[i + 1..] == old(a[i + 1..])
    {
      ghost var s := a[..];
      InsertingSwap(s, j, i);
      a[j - 1], a[j] := a[j], a[j - 1];
      assert a[..] == s[j - 1 := s[j]][j := s[j - 1]];
      j := j - 1;
    }
    InsertingDone(a[..], j, i);
  }

  /** sort.Strings, as an insertion sort in place. */
  method SortStrings(a: array<string>)
    modifies a
    ensures Sorted(a[..])
    ensures multiset(a[..]) == old(multiset(a[..]))
  {
    var i := 0;
    while i < a.Length
      invariant 0 <= i <= a.Length
      invariant SortedUpTo(a[..], i)
      invariant multiset(a[..]) == old(multiset(a[..]))
    {
      InsertIntoPrefix(a, i);
      i := i + 1;
    }
  }

  lemma {:induction false} DistinctCount(s: seq<string>, x: string)
    requires Distinct(s)
    ensures multiset(s)[x] <= 1
  {
    if s != [] {
      assert s == [s[0]] + s[1..];
      DistinctCount(s[1..], x);
      if x == s[0] {
        assert x !in s[1..];
      }
    }
  }

  /** A rearrangement of a list without repetitions has none either. */
  lemma DistinctPermutation(s: seq<string>, t: seq<string>)
    requires Distinct(s) && multiset(s) == multiset(t)
    ensures Distinct(t)
  {
    forall i, j | 0 <= i < j < |t|
      ensures t[i] != t[j]
    {
      if t[i] == t[j] {
        assert t == t[..i] + [t[i]] + t[i + 1..j] + [t[j]] + t[j + 1..];
        assert multiset(t)[t[i]] >= 2;
        DistinctCount(s, t[i]);
        assert false;
      }
    }
  }

  lemma SortedDistinct(s: seq<string>)
    requires Sorted(s) && Distinct(s)
    ensures StrictlySorted(s)
  {
  }

  /**
   * The source fills a map with the packaged names, appends its keys to a
   * list in the map's (unspecified) iteration order and sorts the list.
   */
  method ProtosFromFileDescriptorSet(files: seq<string>) returns (filenames: seq<string>)
    ensures filenames == Resolved(files)
    ensures StrictlySorted(filenames)
    ensures forall n :: n in filenames <==> n in files && !HasPrefix(n, WellKnownPrefix)
  {
    var filenameset: map<string, bool> := map[];
    for i := 0 to |files|
      invariant forall n :: n in filenameset <==> n in files[..i] && Packaged(n)
    {
      var filename := files[i];
      if !HasPrefix(filename, WellKnownPrefix) {
        filenameset := filenameset[filename := true];
      }
      assert files[..i + 1] == files[..i] + [filename];
    }
    assert files[..|files|] == files;
    var keys: seq<string> := [];
    var unvisited := filenameset.Keys;
    while unvisited != {}
      invariant unvisited <= filenameset.Keys
      invariant Distinct(keys)
      invariant forall n :: n in keys <==> n in filenameset && n !in unvisited
      decreases unvisited
    {
      var k :| k in unvisited;
      keys := keys + [k];
      unvisited := unvisited - {k};
    }
    var a := new string[|keys|](i requires 0 <= i < |keys| => keys[i]);
    assert a[..] == keys;
    SortStrings(a);
    filenames := a[..];
    DistinctPermutation(keys, filenames);
    SortedDistinct(filenames);
    assert forall n :: n in filenames <==> n in multiset(keys);
    SortedUnique(filenames, Resolved(files));
  }
}
