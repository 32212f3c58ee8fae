/**
 * The parts of Go's `path/filepath` package that the importer uses, for a
 * system whose separator is '/': Join (which cleans its result) and Base.
 * Clean works on the '/'-separated elements of a path with a stack: empty
 * and "." elements vanish, ".." removes the element before it, and a ".."
 * that has nothing to remove is kept in a relative path and dropped in a
 * rooted one.
 */
module Paths {

  const Separator: char := '/'

  /** The elements of `s` between separators, the first of them prefixed by `cur`. */
  function SplitFrom(s: string, cur: string): (r: seq<string>)
    ensures |r| >= 1
  {
    if s == [] then [cur]
    else if s[0] == Separator then [cur] + SplitFrom(s[1..], "")
    else SplitFrom(s[1..], cur + [s[0]])
  }

  /** strings.Split(s, "/"): the elements between separators. */
  function Split(s: string): seq<string>
  {
    SplitFrom(s, "")
  }

  /** strings.Join(elems, sep) */
  function JoinWith(elems: seq<string>, sep: string): string
  {
    if |elems| == 0 then ""
    else if |elems| == 1 then elems[0]
    else elems[0] + sep + JoinWith(elems[1..], sep)
  }

  /** The stack pass of Clean over the elements `segs` still to read; the top of `acc` is its end. */
  function Normalize(segs: seq<string>, rooted: bool, acc: seq<string>): seq<string>
  {
    if segs == [] then acc
    else
      var e := segs[0];
      if e == "" || e == "." then Normalize(segs[1..], rooted, acc)
      else if e == ".." then
        if |acc| > 0 && acc[|acc| - 1] != ".." then Normalize(segs[1..], rooted, acc[..|acc| - 1])
        else if rooted then Normalize(segs[1..], rooted, acc)
        else Normalize(segs[1..], rooted, acc + [".."])
      else Normalize(segs[1..], rooted, acc + [e])
  }

  /** filepath.Clean */
  function Clean(path: string): string
  {
    if path == "" then "."
    else
      var rooted := path[0] == Separator;
      var body := JoinWith(Normalize(Split(path), rooted, []), [Separator]);
      if rooted then [Separator] + body
      else if body == "" then "."
      else body
  }

  /** filepath.Join: leading empty elements are ignored, the rest are joined and cleaned. */
  function Join(elems: seq<string>): string
  {
    if elems == [] then ""
    else if elems[0] == "" then Join(elems[1..])
    else Clean(JoinWith(elems, [Separator]))
  }

  function StripTrailingSeparators(p: string): string
  {
    if p != [] && p[|p| - 1] == Separator then StripTrailingSeparators(p[..|p| - 1]) else p
  }

  /** The characters after the last separator of `p`. */
  function LastElement(p: string): string
  {
    if p == [] || p[|p| - 1] == Separator then []
    else LastElement(p[..|p| - 1]) + [p[|p| - 1]]
  }

  /** filepath.Base */
  function Base(path: string): string
  {
    if path == [] then "."
    else
      var p := StripTrailingSeparators(path);
      if p == [] then [Separator] else if LastElement(p) == [] then [Separator] else LastElement(p)
  }

  /** A path element that Clean leaves as it is. */
  predicate ProperName(e: string)
  {
    e != "" && e != "." && e != ".."
  }

  /** A relative path with no empty, "." or ".." element: Clean leaves it unchanged. */
  predicate ProperPath(s: string)
  {
    forall i :: 0 <= i < |Split(s)| ==> ProperName(Split(s)[i])
  }

  lemma {:induction false} SplitFromNoSeparator(s: string, cur: string)
    requires Separator !in s
    ensures SplitFrom(s, cur) == [cur + s]
  {
    if s == [] {
      assert cur + s == cur;
    } else {
      SplitFromNoSeparator(s[1..], cur + [s[0]]);
      assert cur + [s[0]] + s[1..] == cur + s;
    }
  }

  /** A string without separators is its own only element. */
  lemma SplitNoSeparator(s: string)
    requires Separator !in s
    ensures Split(s) == [s]
  {
    SplitFromNoSeparator(s, "");
    assert "" + s == s;
  }

  lemma {:induction false} SplitFromConcat(a: string, b: string, cur: string)
    ensures SplitFrom(a + [Separator] + b, cur) == SplitFrom(a, cur) + SplitFrom(b, "")
  {
    var s := a + [Separator] + b;
    if a == [] {
      assert s[0] == Separator && s[1..] == b;
    } else {
      assert s[0] == a[0] && s[1..] == a[1..] + [Separator] + b;
      if a[0] == Separator {
        SplitFromConcat(a[1..], b, "");
        assert [cur] + (SplitFrom(a[1..], "") + SplitFrom(b, "")) == [cur] + SplitFrom(a[1..], "") + SplitFrom(b, "");
      } else {
        SplitFromConcat(a[1..], b, cur + [a[0]]);
      }
    }
  }

  /** The elements of `a/b` are those of `a` followed by those of `b`. */
  lemma SplitConcat(a: string, b: string)
    ensures Split(a + [Separator] + b) == Split(a) + Split(b)
  {
    SplitFromConcat(a, b, "");
  }

  lemma {:induction false} JoinSplitFrom(s: string, cur: string)
    ensures JoinWith(SplitFrom(s, cur), [Separator]) == cur + s
  {
    if s == [] {
      assert cur + s == cur;
    } else if s[0] == Separator {
      JoinSplitFrom(s[1..], "");
      var r := SplitFrom(s[1..], "");
      assert ([cur] + r)[1..] == r;
      assert cur + s == cur + [Separator] + s[1..];
    } else {
      JoinSplitFrom(s[1..], cur + [s[0]]);
      assert cur + [s[0]] + s[1..] == cur + s;
    }
  }

  /** Joining the elements of a path with the separator gives the path back. */
  lemma JoinSplit(s: string)
    ensures JoinWith(Split(s), [Separator]) == s
  {
    JoinSplitFrom(s, "");
    assert "" + s == s;
  }

  lemma {:induction false} NormalizeProper(segs: seq<string>, rooted: bool, acc: seq<string>)
    requires forall i :: 0 <= i < |segs| ==> ProperName(segs[i])
    ensures Normalize(segs, rooted, acc) == acc + segs
  {
    if segs != [] {
      NormalizeProper(segs[1..], rooted, acc + [segs[0]]);
      assert acc + [segs[0]] + segs[1..] == acc + segs;
    }
  }

  /** Clean does not change a proper path. */
  lemma CleanProper(s: string)
    requires ProperPath(s)
    ensures Clean(s) == s
  {
    var segs := Split(s);
    assert ProperName(segs[0]);
    assert s != "";
    assert s[0] != Separator;
    NormalizeProper(segs, false, []);
    assert [] + segs == segs;
    JoinSplit(s);
  }

  /** Join of proper paths is their plain '/'-concatenation, and is itself proper. */
  lemma {:induction false} JoinProper(elems: seq<string>)
    requires |elems| >= 1
    requires forall i :: 0 <= i < |elems| ==> ProperPath(elems[i])
    ensures ProperPath(JoinWith(elems, [Separator]))
    ensures Join(elems) == JoinWith(elems, [Separator])
  {
    var s := JoinWith(elems, [Separator]);
    if |elems| > 1 {
      JoinProper(elems[1..]);
      var tail := JoinWith(elems[1..], [Separator]);
      SplitConcat(elems[0], tail);
      assert s == elems[0] + [Separator] + tail;
      var segs := Split(s);
      forall i | 0 <= i < |segs|
        ensures ProperName(segs[i])
      {
        if i < |Split(elems[0])| {
          assert segs[i] == Split(elems[0])[i];
        } else {
          assert segs[i] == Split(tail)[i - |Split(elems[0])|];
        }
      }
    }
    assert ProperName(Split(elems[0])[0]);
    assert elems[0] != "";
    CleanProper(s);
  }

  lemma JoinTwo(a: string, b: string)
    requires ProperPath(a) && ProperPath(b)
    ensures Join([a, b]) == a + "/" + b
    ensures ProperPath(a + "/" + b)
  {
    JoinProper([a, b]);
    assert [a, b][1..] == [b];
  }

  /** A name without separators is a proper path of one element. */
  lemma ProperNameIsPath(e: string)
    requires ProperName(e) && Separator !in e
    ensures ProperPath(e)
  {
    SplitNoSeparator(e);
  }

  lemma {:induction false} LastElementOf(prefix: string, name: string)
    requires Separator !in name
    ensures LastElement(prefix + [Separator] + name) == name
  {
    var p := prefix + [Separator] + name;
    if name != [] {
      assert p[..|p| - 1] == prefix + [Separator] + name[..|name| - 1];
      LastElementOf(prefix, name[..|name| - 1]);
      assert name == name[..|name| - 1] + [name[|name| - 1]];
    }
  }

  /** Base of a path that ends in a separator and then a name gives that name. */
  lemma BaseOf(prefix: string, name: string)
    requires name != "" && Separator !in name
    ensures Base(prefix + [Separator] + name) == name
  {
    LastElementOf(prefix, name);
  }

  /** Two separator-free names joined by one separator make a proper path. */
  lemma ProperPair(a: string, b: string)
    requires ProperName(a) && Separator !in a
    requires ProperName(b) && Separator !in b
    ensures ProperPath(a + [Separator] + b)
  {
    SplitConcat(a, b);
    SplitNoSeparator(a);
    SplitNoSeparator(b);
  }

  lemma JoinWithCons(x: string, rest: seq<string>, sep: string)
    requires |rest| >= 1
    ensures JoinWith([x] + rest, sep) == x + sep + JoinWith(rest, sep)
  {
    assert ([x] + rest)[1..] == rest;
  }

  lemma JoinWithFour(a: string, b: string, c: string, d: string, sep: string)
    ensures JoinWith([a, b, c, d], sep) == a + sep + b + sep + c + sep + d
  {
    var elems := [a, b, c, d];
    assert elems[1..] == [b, c, d];
    assert elems[1..][1..] == [c, d];
    assert elems[1..][1..][1..] == [d];
    var cd := c + sep + d;
    assert JoinWith([c, d], sep) == cd;
    assert JoinWith([b, c, d], sep) == b + sep + cd;
    assert a + sep + (b + sep + cd) == a + sep + b + sep + c + sep + d;
  }
}
