/** What a change to the sources does to the digest's input: any one file renamed,
    edited, added or removed shows, and over text files so does any change that
    leaves the paths alone; two changes together can otherwise hide each other. */
module BuildSensitivity {
  import opened Ordering
  import opened Separators
  import opened Paths
  import opened BuildDigest

  /** The input for files named relative to the root. */
  function Input(files: seq<Source>): Bytes { Stream([], files) }

  ghost predicate AreNamed(files: seq<Source>) {
    forall s :: s in files ==> IsPath(s.path) && s.path != []
  }

  /** Sorted, one file to a path. */
  ghost predicate IsListing(files: seq<Source>) {
    && AreNamed(files) && Sorted(ByPath, files)
    && forall i, j :: 0 <= i < |files| && 0 <= j < |files| && files[i].path == files[j].path ==> i == j
  }

  function Record(s: Source): Bytes { Join(s.path) + "\0" + s.bytes }

  lemma InputOfOne(files: seq<Source>)
    requires files != []
    ensures Input(files) == Record(files[0]) + Input(files[1..])
  {
    assert files[0].path[0..] == files[0].path;
    assert Input(files) == Join(files[0].path) + "\0" + files[0].bytes + Input(files[1..]);
  }

  lemma InputOfCons(x: Source, rest: seq<Source>)
    ensures Input([x] + rest) == Record(x) + Input(rest)
  {
    InputOfOne([x] + rest);
    assert ([x] + rest)[1..] == rest;
  }

  lemma {:induction false} InputOfConcat(a: seq<Source>, b: seq<Source>)
    ensures Input(a + b) == Input(a) + Input(b)
  {
    if a == [] {
      assert a + b == b;
    } else {
      var x, rest := a[0], a[1..];
      InputOfConcat(rest, b);
      InputOfOne(a);
      InputOfCons(x, rest + b);
      assert a + b == [x] + (rest + b);
      Associate(Record(x), Input(rest), Input(b));
    }
  }

  /** Text up to the first NUL is the path, so different paths show at once. */
  lemma DifferentHeadsDiffer(a: Source, b: Source, restA: Bytes, restB: Bytes)
    requires IsPath(a.path) && IsPath(b.path) && a.path != [] && b.path != [] && a.path != b.path
    ensures Record(a) + restA != Record(b) + restB
  {
    var p, q := Join(a.path), Join(b.path);
    JoinHasNoNul(a.path);
    JoinHasNoNul(b.path);
    if Record(a) + restA == Record(b) + restB {
      Associate(p + "\0", a.bytes, restA);
      Associate(q + "\0", b.bytes, restB);
      SplitAt(p, a.bytes + restA, '\0', q, b.bytes + restB);
      JoinIsInjective(a.path, b.path);
    }
  }

  lemma {:induction false} FirstDifferenceOfPath(a: seq<Source>, b: seq<Source>, k: nat)
    requires AreNamed(a) && AreNamed(b) && k < |a| && k < |b|
    requires a[..k] == b[..k] && a[k].path != b[k].path
    ensures Input(a) != Input(b)
  {
    assert a == a[..k] + a[k..] && b == b[..k] + b[k..];
    InputOfConcat(a[..k], a[k..]);
    InputOfConcat(b[..k], b[k..]);
    InputOfOne(a[k..]);
    InputOfOne(b[k..]);
    assert a[k] in a && b[k] in b;
    DifferentHeadsDiffer(a[k], b[k], Input(a[k..][1..]), Input(b[k..][1..]));
    SamePrefix(Input(a[..k]), Input(a[k..]), Input(b[k..]));
  }

  lemma SamePrefix(p: Bytes, x: Bytes, y: Bytes)
    ensures p + x == p + y <==> x == y
  {
    if p + x == p + y {
      assert x == (p + x)[|p|..] && y == (p + y)[|p|..];
    }
  }

  lemma SameSuffix(x: Bytes, y: Bytes, p: Bytes)
    ensures x + p == y + p <==> x == y
  {
    if x + p == y + p {
      assert |x| == |y|;
      assert x == (x + p)[..|x|] && y == (y + p)[..|y|];
    }
  }

  /** Editing one file changes the input. */
  lemma EditShows(before: seq<Source>, path: Path, bytes: Bytes, edited: Bytes, after: seq<Source>)
    requires bytes != edited
    ensures Input(before + ([Source(path, bytes)] + after)) != Input(before + ([Source(path, edited)] + after))
  {
    var x, y := Source(path, bytes), Source(path, edited);
    InputOfConcat(before, [x] + after);
    InputOfConcat(before, [y] + after);
    InputOfCons(x, after);
    InputOfCons(y, after);
    SamePrefix(Input(before), Record(x) + Input(after), Record(y) + Input(after));
    SameSuffix(Record(x), Record(y), Input(after));
    SamePrefix(Join(path) + "\0", bytes, edited);
  }

  /** Adding or removing one file changes the input. */
  lemma AdditionShows(before: seq<Source>, added: Source, after: seq<Source>)
    ensures Input(before + [added] + after) != Input(before + after)
  {
    InputOfConcat(before + [added], after);
    InputOfConcat(before, [added]);
    InputOfConcat(before, after);
    InputOfOne([added]);
    assert |Input([added])| > 0;
  }

  lemma {:induction false} ListedOnce(files: seq<Source>, s: Source)
    requires forall i, j :: 0 <= i < |files| && 0 <= j < |files| && files[i].path == files[j].path ==> i == j
    ensures multiset(files)[s] == if s in files then 1 else 0
  {
    if files != [] {
      assert files == files[..|files| - 1] + [files[|files| - 1]];
      ListedOnce(files[..|files| - 1], s);
    }
  }

  /** Nothing among the others shares the path of the one file set apart. */
  lemma PathsApart(files: seq<Source>, apart: Source, others: multiset<Source>)
    requires IsListing(files) && multiset(files) == others + multiset{apart}
    ensures forall x :: x in others ==> x in files && x.path != apart.path
  {
    ListedOnce(files, apart);
    assert apart in multiset(files);
    forall x | x in others ensures x in files && x.path != apart.path {
      assert x in multiset(files) && x != apart;
    }
  }

  /** Renaming one file, its bytes unchanged or not, changes the input wherever the
      new name sorts. */
  lemma RenameShows(a: seq<Source>, b: seq<Source>, others: multiset<Source>, was: Source, now: Source)
    requires IsListing(a) && IsListing(b)
    requires multiset(a) == others + multiset{was} && multiset(b) == others + multiset{now}
    requires was.path != now.path
    ensures Input(a) != Input(b)
  {
    assert |multiset(a)| == |a| && |multiset(b)| == |b|;
    assert multiset(a)[was] == multiset(b)[was] + 1;
    var k := FirstDifference(a, b);
    PathsApart(a, was, others);
    PathsApart(b, now, others);
    assert a[k] in multiset(a) && b[k] in multiset(b);
    assert a[k] in others || a[k] == was;
    assert b[k] in others || b[k] == now;
    FirstDifferenceOfPath(a, b, k);
  }

  lemma {:induction false} FirstDifference(a: seq<Source>, b: seq<Source>) returns (k: nat)
    requires |a| == |b| && a != b
    ensures k < |a| && a[..k] == b[..k] && a[k] != b[k]
  {
    if a[0] != b[0] {
      k := 0;
    } else {
      assert a == [a[0]] + a[1..] && b == [b[0]] + b[1..];
      var n := FirstDifference(a[1..], b[1..]);
      k := n + 1;
      assert a[..k] == [a[0]] + a[1..][..n] && b[..k] == [b[0]] + b[1..][..n];
    }
  }

  // ------------------------------------------------ when the input tells trees apart

  /** Every file is text: no NUL in its bytes. */
  predicate IsText(files: seq<Source>) {
    forall s :: s in files ==> '\0' !in s.bytes
  }

  /** The input cut at its NULs, for text files: the first path, then each file's
      bytes run into the next path, and the last file's bytes alone. */
  function Pieces(files: seq<Source>): seq<Bytes>
    ensures |Pieces(files)| == |files| + 1
  {
    if files == [] then [""]
    else
      var rest := Pieces(files[1..]);
      [Join(files[0].path), files[0].bytes + rest[0]] + rest[1..]
  }

  function Unsplit(pieces: seq<Bytes>): Bytes
    requires pieces != []
  {
    if |pieces| == 1 then pieces[0] else pieces[0] + "\0" + Unsplit(pieces[1..])
  }

  lemma UnsplitOfLonger(b: Bytes, pieces: seq<Bytes>)
    requires pieces != []
    ensures Unsplit([b + pieces[0]] + pieces[1..]) == b + Unsplit(pieces)
  {
    var longer := [b + pieces[0]] + pieces[1..];
    assert longer[1..] == pieces[1..];
    if |pieces| > 1 {
      Associate(b, pieces[0], "\0");
      Associate(b, pieces[0] + "\0", Unsplit(pieces[1..]));
    }
  }

  lemma {:induction false} InputIsUnsplit(files: seq<Source>)
    ensures Input(files) == Unsplit(Pieces(files))
  {
    if files != [] {
      var x, rest := files[0], Pieces(files[1..]);
      InputIsUnsplit(files[1..]);
      InputOfOne(files);
      UnsplitOfLonger(x.bytes, rest);
      assert Pieces(files)[1..] == [x.bytes + rest[0]] + rest[1..];
      Associate(Join(x.path) + "\0", x.bytes, Input(files[1..]));
    }
  }

  ghost predicate NoNul(pieces: seq<Bytes>) { forall p :: p in pieces ==> '\0' !in p }

  lemma {:induction false} PiecesHoldNoNul(files: seq<Source>)
    requires AreNamed(files) && IsText(files)
    ensures NoNul(Pieces(files))
  {
    if files != [] {
      assert files[0] in files && forall s :: s in files[1..] ==> s in files;
      PiecesHoldNoNul(files[1..]);
      JoinHasNoNul(files[0].path);
      var rest := Pieces(files[1..]);
      assert rest[0] in rest;
      forall p | p in Pieces(files) ensures '\0' !in p {
        assert p == Join(files[0].path) || p == files[0].bytes + rest[0] || p in rest[1..];
        assert forall r :: r in rest[1..] ==> r in rest;
      }
    }
  }

  lemma HoldsNul(p: Bytes, x: Bytes)
    ensures '\0' in p + "\0" + x
  {
    assert (p + "\0" + x)[|p|] == '\0';
  }

  lemma {:induction false} UnsplitIsInjective(a: seq<Bytes>, b: seq<Bytes>)
    requires a != [] && b != [] && NoNul(a) && NoNul(b) && Unsplit(a) == Unsplit(b)
    ensures a == b
  {
    assert a[0] in a && b[0] in b;
    assert forall p :: p in a[1..] ==> p in a;
    assert forall p :: p in b[1..] ==> p in b;
    if |a| > 1 { HoldsNul(a[0], Unsplit(a[1..])); }
    if |b| > 1 { HoldsNul(b[0], Unsplit(b[1..])); }
    if |a| > 1 && |b| > 1 {
      SplitAt(a[0], Unsplit(a[1..]), '\0', b[0], Unsplit(b[1..]));
      UnsplitIsInjective(a[1..], b[1..]);
      assert a == [a[0]] + a[1..] && b == [b[0]] + b[1..];
    } else {
      assert |a| == 1 && |b| == 1;
    }
  }

  /** Exactly when two lists of text files feed the hasher the same bytes: they have
      as many files, and the pieces between the NULs agree. */
  lemma SameInputIffSamePieces(a: seq<Source>, b: seq<Source>)
    requires AreNamed(a) && AreNamed(b) && IsText(a) && IsText(b)
    ensures Input(a) == Input(b) <==> Pieces(a) == Pieces(b)
  {
    InputIsUnsplit(a);
    InputIsUnsplit(b);
    PiecesHoldNoNul(a);
    PiecesHoldNoNul(b);
    if Input(a) == Input(b) { UnsplitIsInjective(Pieces(a), Pieces(b)); }
  }

  predicate SamePaths(a: seq<Source>, b: seq<Source>) {
    |a| == |b| && forall i :: 0 <= i < |a| ==> a[i].path == b[i].path
  }

  lemma {:induction false} SamePiecesSameBytes(a: seq<Source>, b: seq<Source>)
    requires SamePaths(a, b) && Pieces(a) == Pieces(b)
    ensures a == b
  {
    if a != [] {
      var p, q := Pieces(a[1..]), Pieces(b[1..]);
      assert Pieces(a)[1] == a[0].bytes + p[0] && Pieces(b)[1] == b[0].bytes + q[0];
      assert Pieces(a)[2..] == p[1..] && Pieces(b)[2..] == q[1..];
      assert p[0] == q[0] by { if |a| > 1 { assert a[1].path == b[1].path; } }
      SameSuffix(a[0].bytes, b[0].bytes, p[0]);
      assert p == [p[0]] + p[1..] && q == [q[0]] + q[1..];
      SamePiecesSameBytes(a[1..], b[1..]);
      assert a == [a[0]] + a[1..] && b == [b[0]] + b[1..];
    }
  }

  /** Any number of edits to text files shows, as long as no path changes. */
  lemma TextEditsShow(a: seq<Source>, b: seq<Source>)
    requires AreNamed(a) && AreNamed(b) && IsText(a) && IsText(b) && SamePaths(a, b)
    ensures Input(a) == Input(b) <==> a == b
  {
    SameInputIffSamePieces(a, b);
    if Input(a) == Input(b) { SamePiecesSameBytes(a, b); }
  }

  /** Files at these paths with these bytes. */
  function WithBytes(paths: seq<Path>, contents: seq<Bytes>): seq<Source>
    requires |paths| == |contents|
  {
    seq(|paths|, i requires 0 <= i < |paths| => Source(paths[i], contents[i]))
  }

  ghost predicate TellsContentsApart(paths: seq<Path>) {
    forall x: seq<Bytes>, y: seq<Bytes> ::
      |x| == |paths| == |y| && Input(WithBytes(paths, x)) == Input(WithBytes(paths, y)) ==> x == y
  }

  /** Where any bytes at all may stand in a file, a NUL and the next path among
      them, only the contents of a single file are told apart. */
  lemma ContentsToldApartIffOneFile(paths: seq<Path>)
    ensures TellsContentsApart(paths) <==> |paths| <= 1
  {
    if |paths| >= 2 {
      var n, between := |paths| - 2, Join(paths[1]) + "\0";
      var x, y := ["", between] + Blanks(n), [between, ""] + Blanks(n);
      var after := WithBytes(paths[2..], Blanks(n));
      assert between + "" == between && x[2..] == Blanks(n) && y[2..] == Blanks(n);
      FirstTwo(paths, x);
      FirstTwo(paths, y);
      TwoEditsCanHide([], paths[0], paths[1], "", after);
      assert |between| > 0 && x[0] == "" && y[0] == between;
    } else if |paths| == 1 {
      forall x: seq<Bytes>, y: seq<Bytes>
        | |x| == |paths| == |y| && Input(WithBytes(paths, x)) == Input(WithBytes(paths, y))
        ensures x == y
      {
        OneFileShows(paths[0], x[0], y[0]);
        assert WithBytes(paths, x) == [Source(paths[0], x[0])] && WithBytes(paths, y) == [Source(paths[0], y[0])];
      }
    }
  }

  lemma FirstTwo(paths: seq<Path>, contents: seq<Bytes>)
    requires |paths| == |contents| >= 2
    ensures WithBytes(paths, contents)
            == [] + [Source(paths[0], contents[0]), Source(paths[1], contents[1])]
               + WithBytes(paths[2..], contents[2..])
  {
  }

  function Blanks(n: nat): seq<Bytes> { seq(n, _ => "") }

  lemma OneFileShows(path: Path, x: Bytes, y: Bytes)
    ensures Input([Source(path, x)]) == Input([Source(path, y)]) ==> x == y
  {
    if x != y {
      EditShows([], path, x, y, []);
      assert [] + ([Source(path, x)] + []) == [Source(path, x)];
      assert [] + ([Source(path, y)] + []) == [Source(path, y)];
    }
  }

  lemma InputOfTwo(p: Source, q: Source)
    ensures Input([p, q]) == Record(p) + Record(q)
  {
    InputOfOne([p, q]);
    InputOfOne([q]);
    assert [p, q][1..] == [q] && [q][1..] == [];
  }

  lemma InputOfMiddle(before: seq<Source>, middle: seq<Source>, after: seq<Source>)
    ensures Input(before + middle + after) == Input(before) + Input(middle) + Input(after)
  {
    InputOfConcat(before + middle, after);
    InputOfConcat(before, middle);
  }

  /** The bytes of a file are not delimited from the next path: at any two
      neighbours of a list, two edits can leave the input as it was, if a file may
      hold a NUL. */
  lemma TwoEditsCanHide(before: seq<Source>, p: Path, q: Path, rest: Bytes, after: seq<Source>)
    ensures var between := Join(q) + "\0";
            && [Source(p, ""), Source(q, between + rest)] != [Source(p, between), Source(q, rest)]
            && Input(before + [Source(p, ""), Source(q, between + rest)] + after)
               == Input(before + [Source(p, between), Source(q, rest)] + after)
  {
    var between := Join(q) + "\0";
    InputOfMiddle(before, [Source(p, ""), Source(q, between + rest)], after);
    InputOfMiddle(before, [Source(p, between), Source(q, rest)], after);
    InputOfTwo(Source(p, ""), Source(q, between + rest));
    InputOfTwo(Source(p, between), Source(q, rest));
    Associate(Join(p) + "\0", between, between + rest);
    assert Join(p) + "\0" + "" == Join(p) + "\0";
  }

  /** `q` with a character put before its first name. */
  function Longer(c: char, q: Path): Path
    requires q != []
  {
    [[c] + q[0]] + q[1..]
  }

  lemma JoinOfLonger(c: char, q: Path)
    requires q != []
    ensures Join(Longer(c, q)) == [c] + Join(q)
  {
    assert Longer(c, q)[1..] == q[1..];
  }

  /** Text files included, an edit and a move can: the last character of a file goes
      over to the name of its neighbour's top directory. */
  lemma MoveAndEditCanHide(before: seq<Source>, p: Path, x: Bytes, c: char, q: Path, r: Bytes, after: seq<Source>)
    requires q != []
    ensures Input(before + [Source(p, x), Source(Longer(c, q), r)] + after)
            == Input(before + [Source(p, x + [c]), Source(q, r)] + after)
  {
    InputOfMiddle(before, [Source(p, x), Source(Longer(c, q), r)], after);
    InputOfMiddle(before, [Source(p, x + [c]), Source(q, r)], after);
    InputOfTwo(Source(p, x), Source(Longer(c, q), r));
    InputOfTwo(Source(p, x + [c]), Source(q, r));
    JoinOfLonger(c, q);
    var head, tail := Join(p) + "\0", Join(q) + "\0" + r;
    assert [c] + Join(q) + "\0" + r == [c] + tail;
    Associate(head, x, [c]);
    Associate(head + x, [c], tail);
  }

  lemma NamesOrdered(p: Path, q: Path)
    requires p != [] && q != [] && p[0] != "" && q[0] != "" && p[0][0] < q[0][0]
    ensures PathLeq(p, q)
  {
    assert NameLeq(p[0], q[0]);
  }

  lemma PairIsListing(p: Path, x: Bytes, q: Path, r: Bytes)
    requires IsPath(p) && IsPath(q) && p != [] && q != []
    requires p[0] != "" && q[0] != "" && p[0][0] < q[0][0]
    ensures IsListing([Source(p, x), Source(q, r)])
  {
    NamesOrdered(p, q);
  }

  /** Real listings of text files are among them: at any path whose first letter
      comes before those of two others that differ by one letter in front. */
  lemma MovedListingsCollide(p: Path, x: Bytes, c: char, q: Path, r: Bytes)
    requires IsPath(p) && IsPath(q) && p != [] && q != [] && p[0] != "" && q[0] != ""
    requires c != '/' && c != '\0' && p[0][0] < c && p[0][0] < q[0][0] && '\0' !in x && '\0' !in r
    ensures var a := [Source(p, x), Source(Longer(c, q), r)];
            var b := [Source(p, x + [c]), Source(q, r)];
            IsListing(a) && IsListing(b) && IsText(a) && IsText(b) && a != b && Input(a) == Input(b)
  {
    var a := [Source(p, x), Source(Longer(c, q), r)];
    var b := [Source(p, x + [c]), Source(q, r)];
    assert q[0] in q && IsName(q[0]);
    PairIsListing(p, x, Longer(c, q), r);
    PairIsListing(p, x + [c], q, r);
    MoveAndEditCanHide([], p, x, c, q, r, []);
    assert [] + a + [] == a && [] + b + [] == b;
    assert a[0].bytes != b[0].bytes;
  }
}
