/** The library sort the modelled code calls (`Array.prototype.sort`, `Vec::sort`),
    stated once: a stable insertion sort over a total preorder, and the fact that
    a sorted sequence is determined by its contents when the order is antisymmetric. */
module Ordering {

  ghost predicate TotalPreorder<T(!new)>(leq: (T, T) -> bool) {
    && (forall x, y :: leq(x, y) || leq(y, x))
    && (forall x, y, z :: leq(x, y) && leq(y, z) ==> leq(x, z))
  }

  ghost predicate TotalOrder<T(!new)>(leq: (T, T) -> bool) {
    && TotalPreorder(leq)
    && (forall x, y :: leq(x, y) && leq(y, x) ==> x == y)
  }

  ghost predicate Sorted<T>(leq: (T, T) -> bool, s: seq<T>) {
    forall i, j :: 0 <= i < j < |s| ==> leq(s[i], s[j])
  }

  ghost predicate NoDuplicates<T>(s: seq<T>) {
    forall i, j :: 0 <= i < j < |s| ==> s[i] != s[j]
  }

  /** Insert `x` after every element it does not strictly precede. */
  function Insert<T>(leq: (T, T) -> bool, s: seq<T>, x: T): seq<T> {
    if s == [] then [x]
    else if leq(s[|s| - 1], x) then s + [x]
    else Insert(leq, s[..|s| - 1], x) + [s[|s| - 1]]
  }

  function Sort<T>(leq: (T, T) -> bool, s: seq<T>): seq<T> {
    if s == [] then [] else Insert(leq, Sort(leq, s[..|s| - 1]), s[|s| - 1])
  }

  lemma {:induction false} InsertIsSorted<T(!new)>(leq: (T, T) -> bool, s: seq<T>, x: T)
    requires TotalPreorder(leq) && Sorted(leq, s)
    ensures Sorted(leq, Insert(leq, s, x))
    ensures multiset(Insert(leq, s, x)) == multiset(s) + multiset{x}
  {
    if s != [] {
      var init, last := s[..|s| - 1], s[|s| - 1];
      assert s == init + [last];
      if !leq(last, x) {
        InsertIsSorted(leq, init, x);
        var r := Insert(leq, init, x);
        forall i | 0 <= i < |r| ensures leq(r[i], last) {
          assert r[i] in multiset(r);
          assert r[i] in multiset(init) || r[i] == x;
        }
      }
    }
  }

  lemma {:induction false} SortIsSorted<T(!new)>(leq: (T, T) -> bool, s: seq<T>)
    requires TotalPreorder(leq)
    ensures Sorted(leq, Sort(leq, s)) && multiset(Sort(leq, s)) == multiset(s)
  {
    if s != [] {
      assert s == s[..|s| - 1] + [s[|s| - 1]];
      SortIsSorted(leq, s[..|s| - 1]);
      InsertIsSorted(leq, Sort(leq, s[..|s| - 1]), s[|s| - 1]);
    }
  }

  /** Sorting a sorted sequence with one more element is one insertion. */
  lemma SortOfOneMore<T(!new)>(leq: (T, T) -> bool, s: seq<T>, x: T)
    requires Sorted(leq, s)
    ensures Sort(leq, s + [x]) == Insert(leq, s, x)
  {
    assert (s + [x])[..|s|] == s;
    SortOfSorted(leq, s);
  }

  lemma {:induction false} SortOfSorted<T(!new)>(leq: (T, T) -> bool, s: seq<T>)
    requires Sorted(leq, s)
    ensures Sort(leq, s) == s
  {
    if s != [] {
      SortOfSorted(leq, s[..|s| - 1]);
      assert s == s[..|s| - 1] + [s[|s| - 1]];
      if |s| > 1 { assert leq(s[|s| - 2], s[|s| - 1]); }
    }
  }

  /** No two elements of `s` tie. */
  ghost predicate NoTies<T(!new)>(leq: (T, T) -> bool, s: seq<T>) {
    forall x, y :: x in s && y in s && leq(x, y) && leq(y, x) ==> x == y
  }

  lemma SmallestIsFirst<T(!new)>(leq: (T, T) -> bool, a: seq<T>, x: T)
    requires TotalPreorder(leq) && Sorted(leq, a) && x in multiset(a)
    ensures a != [] && leq(a[0], x)
  {
    var i :| 0 <= i < |a| && a[i] == x;
  }

  lemma TailContents<T>(a: seq<T>)
    requires a != []
    ensures multiset(a[1..]) == multiset(a) - multiset{a[0]}
    ensures forall x :: x in a[1..] ==> x in a
  {
    assert a == [a[0]] + a[1..];
  }

  /** A sorted sequence is the only sorted arrangement of its contents. */
  lemma {:induction false} SortedIsUnique<T(!new)>(leq: (T, T) -> bool, a: seq<T>, b: seq<T>)
    requires TotalPreorder(leq) && Sorted(leq, a) && Sorted(leq, b) && NoTies(leq, a)
    requires multiset(a) == multiset(b)
    ensures a == b
  {
    assert |multiset(a)| == |a| && |multiset(b)| == |b|;
    if a != [] {
      SameSmallest(leq, a, b);
      SameTails(leq, a, b);
      SortedIsUnique(leq, a[1..], b[1..]);
      assert a == [a[0]] + a[1..] && b == [b[0]] + b[1..];
    }
  }

  lemma SameTails<T(!new)>(leq: (T, T) -> bool, a: seq<T>, b: seq<T>)
    requires Sorted(leq, a) && Sorted(leq, b) && NoTies(leq, a)
    requires a != [] && b != [] && a[0] == b[0] && multiset(a) == multiset(b)
    ensures Sorted(leq, a[1..]) && Sorted(leq, b[1..]) && NoTies(leq, a[1..])
    ensures multiset(a[1..]) == multiset(b[1..])
  {
    TailContents(a);
    TailContents(b);
  }

  lemma SameSmallest<T(!new)>(leq: (T, T) -> bool, a: seq<T>, b: seq<T>)
    requires TotalPreorder(leq) && Sorted(leq, a) && Sorted(leq, b) && NoTies(leq, a)
    requires multiset(a) == multiset(b) && a != []
    ensures b != [] && a[0] == b[0]
  {
    assert a[0] in multiset(a);
    SmallestIsFirst(leq, b, a[0]);
    assert b[0] in multiset(b);
    SmallestIsFirst(leq, a, b[0]);
    assert a[0] in a && b[0] in a by { assert b[0] in multiset(a); }
  }

  // ------------------------------------------------------- lexicographic order

  predicate LexLeq<T(==)>(leq: (T, T) -> bool, a: seq<T>, b: seq<T>) {
    if a == [] then true
    else if b == [] then false
    else if a[0] == b[0] then LexLeq(leq, a[1..], b[1..])
    else leq(a[0], b[0])
  }

  /** A common prefix does not take part in the comparison. */
  lemma {:induction false} LexIgnoresPrefix<T>(leq: (T, T) -> bool, prefix: seq<T>, a: seq<T>, b: seq<T>)
    ensures LexLeq(leq, prefix + a, prefix + b) == LexLeq(leq, a, b)
  {
    if prefix == [] {
      assert prefix + a == a && prefix + b == b;
    } else {
      LexIgnoresPrefix(leq, prefix[1..], a, b);
      assert (prefix + a)[1..] == prefix[1..] + a && (prefix + b)[1..] == prefix[1..] + b;
    }
  }

  /** The first difference decides, and what ends first comes first. */
  lemma FirstDifferenceDecides<T>(leq: (T, T) -> bool, prefix: seq<T>, x: T, y: T, a: seq<T>, b: seq<T>)
    requires x != y
    ensures LexLeq(leq, prefix + ([x] + a), prefix + ([y] + b)) == leq(x, y)
    ensures LexLeq(leq, prefix, prefix + a)
  {
    LexIgnoresPrefix(leq, prefix, [x] + a, [y] + b);
    LexIgnoresPrefix(leq, prefix, [], a);
    assert prefix + [] == prefix;
  }

  lemma {:induction false} LexIsTotal<T(!new)>(leq: (T, T) -> bool, a: seq<T>, b: seq<T>)
    requires TotalOrder(leq)
    ensures LexLeq(leq, a, b) || LexLeq(leq, b, a)
    ensures LexLeq(leq, a, b) && LexLeq(leq, b, a) ==> a == b
  {
    if a != [] && b != [] {
      assert a == [a[0]] + a[1..] && b == [b[0]] + b[1..];
      if a[0] == b[0] {
        LexIsTotal(leq, a[1..], b[1..]);
      } else {
        assert leq(a[0], b[0]) || leq(b[0], a[0]);
      }
    }
  }

  lemma {:induction false} LexIsTransitive<T(!new)>(leq: (T, T) -> bool, a: seq<T>, b: seq<T>, c: seq<T>)
    requires TotalOrder(leq) && LexLeq(leq, a, b) && LexLeq(leq, b, c)
    ensures LexLeq(leq, a, c)
  {
    if a != [] {
      if a[0] == b[0] && b[0] == c[0] {
        LexIsTransitive(leq, a[1..], b[1..], c[1..]);
      } else {
        assert leq(a[0], b[0]) || a[0] == b[0];
        assert leq(b[0], c[0]) || b[0] == c[0];
      }
    }
  }
}
