/** Paths with forward slashes as pathlib takes them apart, and the order of strings by code
    point. */
module PosixPath {
  import opened Wrappers
  import opened Text

  predicate IsAbsolute(s: string) {
    s != "" && s[0] == '/'
  }

  /** The parts of a relative path: empty and "." components are dropped, ".." is kept. */
  function PathParts(s: string): seq<string> {
    WithoutDots(Components(s, '/'))
  }

  /** A part that a directory entry can have and that pathlib keeps. */
  predicate CleanPart(part: string) {
    part != "" && part != "." && part != ".." && '/' !in part
  }

  ghost predicate CleanParts(parts: seq<string>) {
    forall k :: 0 <= k < |parts| ==> CleanPart(parts[k])
  }

  lemma {:induction false} WithoutDotsParts(parts: seq<string>)
    requires NoneContains(parts, '/') && forall k :: 0 <= k < |parts| ==> parts[k] != ""
    ensures ".." !in WithoutDots(parts) ==> CleanParts(WithoutDots(parts))
    ensures NoneContains(WithoutDots(parts), '/') && forall k :: 0 <= k < |WithoutDots(parts)| ==> WithoutDots(parts)[k] != ""
  {
    if parts != [] {
      assert forall k :: 0 <= k < |parts[1..]| ==> parts[1..][k] == parts[k + 1];
      WithoutDotsParts(parts[1..]);
    }
  }

  lemma PathPartsClean(s: string)
    requires ".." !in PathParts(s)
    ensures CleanParts(PathParts(s))
  {
    ComponentsProperties(s, '/');
    WithoutDotsParts(Components(s, '/'));
  }

  lemma {:induction false} NoDotsToDrop(parts: seq<string>)
    requires "." !in parts
    ensures WithoutDots(parts) == parts
  {
    if parts != [] {
      NoDotsToDrop(parts[1..]);
    }
  }

  /** Taking apart undoes joining. */
  lemma {:induction false} PartsOfJoin(parts: seq<string>)
    requires CleanParts(parts)
    ensures Components(Join(parts, '/'), '/') == parts && PathParts(Join(parts, '/')) == parts
  {
    ComponentsOfJoin(parts, '/');
    NoDotsToDrop(parts);
  }

  lemma {:induction false} JoinNotAbsolute(parts: seq<string>)
    requires CleanParts(parts)
    ensures !IsAbsolute(Join(parts, '/')) && (parts != [] ==> Join(parts, '/') != "")
  {
    if |parts| > 1 {
      assert CleanPart(parts[0]);
      assert Join(parts, '/')[0] == parts[0][0];
    }
  }

  /** One path lies below another. */
  predicate Below(deeper: seq<string>, upper: seq<string>) {
    upper < deeper
  }

  // ----- order -----

  /** Python's order on str. */
  predicate LessEq(a: string, b: string) {
    a == "" || (b != "" && (a[0] < b[0] || (a[0] == b[0] && LessEq(a[1..], b[1..]))))
  }

  lemma {:induction false} LessEqTotal(a: string, b: string)
    ensures LessEq(a, b) || LessEq(b, a)
  {
    if a != "" && b != "" && a[0] == b[0] {
      LessEqTotal(a[1..], b[1..]);
    }
  }

  lemma {:induction false} LessEqTransitive(a: string, b: string, c: string)
    requires LessEq(a, b) && LessEq(b, c)
    ensures LessEq(a, c)
  {
    if a != "" && a[0] == b[0] && b[0] == c[0] {
      LessEqTransitive(a[1..], b[1..], c[1..]);
    }
  }

  lemma {:induction false} LessEqAntisymmetric(a: string, b: string)
    requires LessEq(a, b) && LessEq(b, a)
    ensures a == b
  {
    if a != "" {
      LessEqAntisymmetric(a[1..], b[1..]);
      assert a == [a[0]] + a[1..] && b == [b[0]] + b[1..];
    }
  }

  ghost predicate Sorted(names: seq<string>) {
    forall j, k :: 0 <= j < k < |names| ==> LessEq(names[j], names[k])
  }
}
