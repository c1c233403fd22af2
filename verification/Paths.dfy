/** Paths as Rust compares and prints them: component by component. */
module Paths {
  import opened Ordering

  type Path = seq<string>

  predicate CharLeq(a: char, b: char) { a <= b }

  predicate NameLeq(a: string, b: string) { LexLeq(CharLeq, a, b) }

  predicate PathLeq(a: Path, b: Path) { LexLeq(NameLeq, a, b) }

  lemma NamesAreOrdered()
    ensures TotalOrder(NameLeq)
  {
    forall x, y ensures (NameLeq(x, y) || NameLeq(y, x)) && (NameLeq(x, y) && NameLeq(y, x) ==> x == y) {
      LexIsTotal(CharLeq, x, y);
    }
    forall x, y, z | NameLeq(x, y) && NameLeq(y, z) ensures NameLeq(x, z) {
      LexIsTransitive(CharLeq, x, y, z);
    }
  }

  lemma PathsAreOrdered()
    ensures TotalOrder(PathLeq)
  {
    NamesAreOrdered();
    forall x, y ensures (PathLeq(x, y) || PathLeq(y, x)) && (PathLeq(x, y) && PathLeq(y, x) ==> x == y) {
      LexIsTotal(NameLeq, x, y);
    }
    forall x, y, z | PathLeq(x, y) && PathLeq(y, z) ensures PathLeq(x, z) {
      LexIsTransitive(NameLeq, x, y, z);
    }
  }

  function Join(path: Path): string {
    if path == [] then "" else if |path| == 1 then path[0] else path[0] + "/" + Join(path[1..])
  }

  /** Names joined by single slashes. */
  lemma {:induction false} JoinOfConcat(a: Path, b: Path)
    requires a != [] && b != []
    ensures Join(a + b) == Join(a) + "/" + Join(b)
  {
    assert (a + b)[1..] == a[1..] + b;
    if |a| > 1 { JoinOfConcat(a[1..], b); }
  }

  /** Paths are ordered at their first different name and names at their first different
      character, and a directory comes before all that is in it. */
  lemma FirstDifferentCharacterDecides(dir: Path, name: string, x: char, y: char, a: string, b: string,
                                       below: Path, other: Path)
    requires x < y
    ensures PathLeq(dir + ([name + ([x] + a)] + below), dir + ([name + ([y] + b)] + other))
    ensures !PathLeq(dir + ([name + ([y] + b)] + other), dir + ([name + ([x] + a)] + below))
    ensures PathLeq(dir, dir + below)
  {
    var first, second := name + ([x] + a), name + ([y] + b);
    assert first[|name|] == x && second[|name|] == y;
    FirstDifferenceDecides(CharLeq, name, x, y, a, b);
    FirstDifferenceDecides(CharLeq, name, y, x, b, a);
    FirstDifferenceDecides(NameLeq, dir, first, second, below, other);
    FirstDifferenceDecides(NameLeq, dir, second, first, other, below);
  }

  /** A file name: not empty, no slash, no NUL. */
  predicate IsName(name: string) { name != "" && '/' !in name && '\0' !in name }

  predicate IsPath(path: Path) { forall n :: n in path ==> IsName(n) }

  lemma {:induction false} JoinIsInjective(a: Path, b: Path)
    requires IsPath(a) && IsPath(b) && a != [] && b != [] && Join(a) == Join(b)
    ensures a == b
  {
    var s := Join(a);
    assert IsName(a[0]) && IsName(b[0]);
    assert forall i :: 0 <= i < |a[0]| ==> s[i] == a[0][i];
    assert forall i :: 0 <= i < |b[0]| ==> s[i] == b[0][i];
    assert |a| > 1 ==> s[|a[0]|] == '/';
    assert |b| > 1 ==> s[|b[0]|] == '/';
    assert |a[0]| == |b[0]|;
    assert a[0] == s[..|a[0]|] && b[0] == s[..|b[0]|];
    if |a| > 1 && |b| > 1 {
      assert Join(a[1..]) == s[|a[0]| + 1..] && Join(b[1..]) == s[|b[0]| + 1..];
      assert forall n :: n in a[1..] ==> n in a;
      assert forall n :: n in b[1..] ==> n in b;
      JoinIsInjective(a[1..], b[1..]);
      assert a == [a[0]] + a[1..] && b == [b[0]] + b[1..];
    } else {
      assert |a| == 1 && |b| == 1;
    }
  }

  lemma {:induction false} JoinHasNoNul(a: Path)
    requires IsPath(a)
    ensures '\0' !in Join(a)
  {
    if |a| == 1 {
      assert a[0] in a;
    } else if |a| > 1 {
      assert a[0] in a;
      assert forall n :: n in a[1..] ==> n in a;
      JoinHasNoNul(a[1..]);
    }
  }

  /** The texts of paths: no NUL, no slash at either end, no two slashes together. */
  predicate IsPathText(text: string) {
    && text != "" && '\0' !in text && text[0] != '/' && text[|text| - 1] != '/'
    && forall i :: 0 < i < |text| ==> !(text[i - 1] == '/' && text[i] == '/')
  }

  lemma {:induction false} JoinIsPathText(a: Path)
    requires IsPath(a) && a != []
    ensures IsPathText(Join(a))
  {
    assert a[0] in a && IsName(a[0]);
    if |a| > 1 {
      assert forall n :: n in a[1..] ==> n in a;
      JoinIsPathText(a[1..]);
      JoinedTexts(a[0], Join(a[1..]));
    }
  }

  lemma JoinedTexts(name: string, rest: string)
    requires IsName(name) && IsPathText(rest)
    ensures IsPathText(name + "/" + rest)
  {
    var s := name + "/" + rest;
    assert s[|s| - 1] == rest[|rest| - 1];
    assert forall i :: 0 <= i < |name| ==> s[i] == name[i] && name[i] in name;
    assert forall i :: |name| < i < |s| ==> s[i] == rest[i - |name| - 1];
  }

  /** And every such text is one. */
  lemma {:induction false} PathOfText(text: string) returns (a: Path)
    requires IsPathText(text)
    ensures IsPath(a) && a != [] && Join(a) == text
    decreases |text|
  {
    if '/' !in text {
      a := [text];
    } else {
      var k := FirstSlash(text);
      var rest := text[k + 1..];
      assert forall i :: 0 <= i < |rest| ==> rest[i] == text[k + 1 + i];
      assert text[k] == '/' && text[|text| - 1] != '/';
      var b := PathOfText(rest);
      a := [text[..k]] + b;
      assert a[1..] == b;
      assert text == text[..k] + "/" + rest;
    }
  }

  lemma {:induction false} FirstSlash(text: string) returns (k: nat)
    requires '/' in text
    ensures k < |text| && text[k] == '/' && '/' !in text[..k]
  {
    if text[0] == '/' {
      k := 0;
    } else {
      var n := FirstSlash(text[1..]);
      k := n + 1;
      assert text[..k] == [text[0]] + text[1..][..n];
    }
  }
}
