/** Keys built by putting a separator after a part that does not hold it. */
module Separators {

  /** Such a key gives both parts back. */
  lemma SplitAt<T>(a: seq<T>, x: seq<T>, separator: T, b: seq<T>, y: seq<T>)
    requires separator !in a && separator !in b && a + [separator] + x == b + [separator] + y
    ensures a == b && x == y
  {
    var k := a + [separator] + x;
    assert k[|a|] == separator && k[|b|] == separator;
    assert forall i :: 0 <= i < |a| ==> k[i] == a[i];
    assert forall i :: 0 <= i < |b| ==> k[i] == b[i];
    assert |a| == |b|;
    assert a == k[..|a|] && b == k[..|b|] && x == k[|a| + 1..] && y == k[|b| + 1..];
  }
}
