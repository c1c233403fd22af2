/** Which trees the digest's input tells apart, paths and contents both free: a
    question about what may stand in a file alone. */
module BuildSeparation {
  import opened Ordering
  import opened Paths
  import opened BuildDigest
  import opened BuildSensitivity

  // ------------------------------------------------- when the pieces give the list

  /** A file's bytes running into the path after it can be read in one way only. */
  predicate ReadsOneWay(s: Source, next: Source, t: Source, other: Source) {
    s.bytes + Join(next.path) == t.bytes + Join(other.path) ==> s.bytes == t.bytes
  }

  ghost predicate Unambiguous(a: seq<Source>, b: seq<Source>) {
    forall s, next, t, other :: s in a && next in a && t in b && other in b ==> ReadsOneWay(s, next, t, other)
  }

  lemma UnambiguousTails(a: seq<Source>, b: seq<Source>)
    requires a != [] && b != [] && Unambiguous(a, b) && AreNamed(a) && AreNamed(b)
    ensures Unambiguous(a[1..], b[1..]) && AreNamed(a[1..]) && AreNamed(b[1..])
  {
    assert forall s :: s in a[1..] ==> s in a;
    assert forall s :: s in b[1..] ==> s in b;
  }

  lemma FirstPiece(files: seq<Source>)
    requires files != []
    ensures Pieces(files)[0] == Join(files[0].path)
    ensures Pieces(files)[1] == files[0].bytes + Pieces(files[1..])[0]
    ensures Pieces(files)[2..] == Pieces(files[1..])[1..]
  {
  }

  /** The first file's bytes, once both lists go on or both end. */
  lemma SameFirstBytes(a: seq<Source>, b: seq<Source>)
    requires a != [] && |a| == |b| && Unambiguous(a, b)
    requires a[0].bytes + Pieces(a[1..])[0] == b[0].bytes + Pieces(b[1..])[0]
    ensures a[0].bytes == b[0].bytes && Pieces(a[1..])[0] == Pieces(b[1..])[0]
  {
    if |a| > 1 {
      FirstPiece(a[1..]);
      FirstPiece(b[1..]);
      assert a[0] in a && a[1] in a && b[0] in b && b[1] in b;
      assert ReadsOneWay(a[0], a[1], b[0], b[1]);
    } else {
      assert Pieces(a[1..]) == [""] && Pieces(b[1..]) == [""];
      assert a[0].bytes + "" == a[0].bytes && b[0].bytes + "" == b[0].bytes;
    }
    SamePrefix(a[0].bytes, Pieces(a[1..])[0], Pieces(b[1..])[0]);
  }

  lemma {:induction false} PiecesGiveList(a: seq<Source>, b: seq<Source>)
    requires AreNamed(a) && AreNamed(b) && Unambiguous(a, b) && Pieces(a) == Pieces(b)
    ensures a == b
  {
    assert |Pieces(a)| == |a| + 1 && |Pieces(b)| == |b| + 1;
    if a != [] {
      FirstPiece(a);
      FirstPiece(b);
      assert a[0] in a && b[0] in b;
      JoinIsInjective(a[0].path, b[0].path);
      SameFirstBytes(a, b);
      var p, q := Pieces(a[1..]), Pieces(b[1..]);
      assert p == [p[0]] + p[1..] && q == [q[0]] + q[1..];
      UnambiguousTails(a, b);
      PiecesGiveList(a[1..], b[1..]);
      assert a == [a[0]] + a[1..] && b == [b[0]] + b[1..];
    }
  }

  /** Text files whose bytes run into no path in two ways are told apart, however
      many differ and whichever move. */
  lemma UnambiguousListsShow(a: seq<Source>, b: seq<Source>)
    requires AreNamed(a) && AreNamed(b) && IsText(a) && IsText(b) && Unambiguous(a, b)
    ensures Input(a) == Input(b) <==> a == b
  {
    SameInputIffSamePieces(a, b);
    if Input(a) == Input(b) { PiecesGiveList(a, b); }
  }

  // ------------------------------------------------------------ files made of lines

  /** Empty, or ended by a newline: how editors and formatters leave a source. */
  predicate IsLines(bytes: Bytes) { bytes == "" || bytes[|bytes| - 1] == '\n' }

  ghost predicate AreLines(files: seq<Source>) { forall s :: s in files ==> IsLines(s.bytes) }

  ghost predicate PathsAreOneLine(files: seq<Source>) {
    forall s :: s in files ==> '\n' !in Join(s.path)
  }

  lemma LinesReadOneWay(s: Source, next: Source, t: Source, other: Source)
    requires IsLines(s.bytes) && IsLines(t.bytes)
    requires '\n' !in Join(next.path) && '\n' !in Join(other.path)
    ensures ReadsOneWay(s, next, t, other)
  {
    var x, p, y, q := s.bytes, Join(next.path), t.bytes, Join(other.path);
    if x + p == y + q {
      if |x| < |y| { NewlineInRest(x, p, y, q); }
      if |y| < |x| { NewlineInRest(y, q, x, p); }
      assert |x| == |y|;
      assert x == (x + p)[..|x|] && y == (y + q)[..|y|];
    }
  }

  lemma NewlineInRest(x: Bytes, p: Bytes, y: Bytes, q: Bytes)
    requires x + p == y + q && |x| < |y| && y[|y| - 1] == '\n'
    ensures '\n' in p
  {
    assert (x + p)[|y| - 1] == (y + q)[|y| - 1] == '\n';
    assert p[|y| - 1 - |x|] == '\n';
  }

  /** Any two trees of text files made of lines, at paths without newlines, are told
      apart: any edits, moves, additions and removals together show. */
  lemma LineTreesShow(a: seq<Source>, b: seq<Source>)
    requires AreNamed(a) && AreNamed(b) && IsText(a) && IsText(b)
    requires AreLines(a) && AreLines(b) && PathsAreOneLine(a) && PathsAreOneLine(b)
    ensures Input(a) == Input(b) <==> a == b
  {
    forall s, next, t, other | s in a && next in a && t in b && other in b ensures ReadsOneWay(s, next, t, other) {
      LinesReadOneWay(s, next, t, other);
    }
    UnambiguousListsShow(a, b);
  }

  // ------------------------------------------------------------- the exact condition

  /** `text` can stand at the front of a path: putting it before one gives another. */
  ghost predicate BeginsPath(text: Bytes) {
    exists q: Path, r: Path :: IsPath(q) && q != [] && IsPath(r) && r != [] && Join(q) == text + Join(r)
  }

  /** The smallest name there is. */
  const FIRST_NAME: string := ['\U{0001}']

  /** Which texts those are: no NUL, no slash in front, no two slashes together. */
  lemma BeginsPathIff(text: Bytes)
    ensures BeginsPath(text) <==>
              '\0' !in text && (text != "" ==> text[0] != '/')
              && forall i :: 0 < i < |text| ==> !(text[i - 1] == '/' && text[i] == '/')
  {
    if BeginsPath(text) {
      var q: Path, r: Path :| IsPath(q) && q != [] && IsPath(r) && r != [] && Join(q) == text + Join(r);
      var whole := Join(q);
      JoinIsPathText(q);
      assert forall i :: 0 <= i < |text| ==> whole[i] == text[i];
    } else {
      if IsPathText(text + FIRST_NAME) {
        var q := PathOfText(text + FIRST_NAME);
        assert IsPath([FIRST_NAME]) && Join([FIRST_NAME]) == FIRST_NAME;
        assert BeginsPath(text);
      }
      PathTextOfMore(text);
    }
  }

  lemma PathTextOfMore(text: Bytes)
    requires !IsPathText(text + FIRST_NAME)
    ensures '\0' in text || (text != "" && text[0] == '/')
            || exists i :: 0 < i < |text| && text[i - 1] == '/' && text[i] == '/'
  {
    var u := text + FIRST_NAME;
    assert forall i :: 0 <= i < |text| ==> u[i] == text[i];
    assert u[|text|] == '\U{0001}';
  }

  /** No content goes on, in another, with text that can begin a path. */
  ghost predicate NoneExtendsByPath(allowed: Bytes -> bool) {
    forall x: Bytes, text: Bytes :: allowed(x) && allowed(x + text) && text != "" ==> !BeginsPath(text)
  }

  ghost predicate AllAllowed(files: seq<Source>, allowed: Bytes -> bool) {
    forall s :: s in files ==> allowed(s.bytes)
  }

  /** Listings with such contents feed the hasher different bytes whenever they differ. */
  ghost predicate TellsListingsApart(allowed: Bytes -> bool) {
    forall a, b ::
      (IsListing(a) && IsListing(b) && AllAllowed(a, allowed) && AllAllowed(b, allowed) && Input(a) == Input(b))
      ==> a == b
  }

  lemma AllowedReadOneWay(allowed: Bytes -> bool, s: Source, next: Source, t: Source, other: Source)
    requires NoneExtendsByPath(allowed) && allowed(s.bytes) && allowed(t.bytes)
    requires IsPath(next.path) && next.path != [] && IsPath(other.path) && other.path != []
    ensures ReadsOneWay(s, next, t, other)
  {
    if s.bytes + Join(next.path) == t.bytes + Join(other.path) {
      if |s.bytes| <= |t.bytes| {
        NotExtended(allowed, s.bytes, next.path, t.bytes, other.path);
      } else {
        NotExtended(allowed, t.bytes, other.path, s.bytes, next.path);
      }
    }
  }

  lemma NotExtended(allowed: Bytes -> bool, x: Bytes, q: Path, y: Bytes, r: Path)
    requires NoneExtendsByPath(allowed) && allowed(x) && allowed(y) && |x| <= |y|
    requires IsPath(q) && q != [] && IsPath(r) && r != [] && x + Join(q) == y + Join(r)
    ensures x == y
  {
    var text := y[|x|..];
    Overlap(x, Join(q), y, Join(r));
    assert BeginsPath(text);
    assert allowed(x + text);
  }

  lemma Overlap(x: Bytes, p: Bytes, y: Bytes, q: Bytes)
    requires |x| <= |y| && x + p == y + q
    ensures y == x + y[|x|..] && p == y[|x|..] + q
  {
    var whole := x + p;
    assert x == whole[..|x|] && y == whole[..|y|];
    assert p == whole[|x|..] && q == whole[|y|..];
  }

  // ---------------------------------------- a listing of two files for every overlap

  lemma FirstNameComesFirst(q: Path)
    requires IsPath(q) && q != []
    ensures PathLeq([FIRST_NAME], q)
  {
    assert q[0] in q && IsName(q[0]);
    assert q[0][0] != '\0';
    if q[0][0] == '\U{0001}' {
      assert LexLeq(CharLeq, FIRST_NAME[1..], q[0][1..]);
    }
    assert NameLeq(FIRST_NAME, q[0]);
    assert LexLeq(NameLeq, [FIRST_NAME][1..], q[1..]);
  }

  /** `q` with one more character at its end. */
  function Extended(q: Path): Path
    requires q != []
  {
    q[..|q| - 1] + [q[|q| - 1] + FIRST_NAME]
  }

  lemma {:induction false} ExtendedJoins(q: Path)
    requires IsPath(q) && q != []
    ensures Join(Extended(q)) == Join(q) + FIRST_NAME && IsPath(Extended(q)) && Extended(q) != [FIRST_NAME]
  {
    assert q[|q| - 1] in q && IsName(q[|q| - 1]);
    ExtendedIsPath(q);
    if |q| > 1 {
      assert forall n :: n in q[1..] ==> n in q;
      ExtendedJoins(q[1..]);
      assert Extended(q)[1..] == Extended(q[1..]);
      assert q[0] + "/" + (Join(q[1..]) + FIRST_NAME) == q[0] + "/" + Join(q[1..]) + FIRST_NAME;
    }
  }

  lemma ExtendedIsPath(q: Path)
    requires IsPath(q) && q != []
    ensures IsPath(Extended(q))
  {
    forall n | n in Extended(q) ensures IsName(n) {
      if n == q[|q| - 1] + FIRST_NAME {
        assert q[|q| - 1] in q;
      } else {
        assert n in q;
      }
    }
  }

  function Pair(x: Bytes, q: Path, z: Bytes): seq<Source> { [Source([FIRST_NAME], x), Source(q, z)] }

  lemma PairIsListing(x: Bytes, q: Path, z: Bytes)
    requires IsPath(q) && q != [] && q != [FIRST_NAME]
    ensures IsListing(Pair(x, q, z))
  {
    FirstNameComesFirst(q);
  }

  lemma PairInput(x: Bytes, q: Path, z: Bytes)
    ensures Input(Pair(x, q, z)) == FIRST_NAME + "\0" + (x + Join(q)) + ("\0" + z)
  {
    InputOfTwo(Source([FIRST_NAME], x), Source(q, z));
  }

  lemma OverlapCollides(allowed: Bytes -> bool, x: Bytes, text: Bytes)
    returns (a: seq<Source>, b: seq<Source>)
    requires allowed(x) && allowed(x + text) && text != "" && BeginsPath(text)
    ensures IsListing(a) && IsListing(b) && AllAllowed(a, allowed) && AllAllowed(b, allowed)
    ensures a != b && Input(a) == Input(b)
  {
    var q: Path, r: Path :| IsPath(q) && q != [] && IsPath(r) && r != [] && Join(q) == text + Join(r);
    ExtendedJoins(q);
    ExtendedJoins(r);
    a, b := Pair(x, Extended(q), x), Pair(x + text, Extended(r), x);
    PairIsListing(x, Extended(q), x);
    PairIsListing(x + text, Extended(r), x);
    PairInput(x, Extended(q), x);
    PairInput(x + text, Extended(r), x);
    assert x + Join(Extended(q)) == x + text + Join(Extended(r));
    assert a[0].bytes != b[0].bytes;
  }

  /** What may stand in a file decides it: over text contents, all listings are told
      apart if and only if no allowed content goes on, in another allowed one, with
      text that can begin a path. */
  lemma ListingsToldApartIff(allowed: Bytes -> bool)
    requires forall x: Bytes :: allowed(x) ==> '\0' !in x
    ensures TellsListingsApart(allowed) <==> NoneExtendsByPath(allowed)
  {
    if NoneExtendsByPath(allowed) {
      forall a, b | IsListing(a) && IsListing(b) && AllAllowed(a, allowed) && AllAllowed(b, allowed)
                    && Input(a) == Input(b)
        ensures a == b
      {
        AllowedListsShow(allowed, a, b);
      }
    } else {
      var x: Bytes, text: Bytes :| allowed(x) && allowed(x + text) && text != "" && BeginsPath(text);
      var a, b := OverlapCollides(allowed, x, text);
    }
  }

  lemma AllowedListsShow(allowed: Bytes -> bool, a: seq<Source>, b: seq<Source>)
    requires NoneExtendsByPath(allowed) && forall x: Bytes :: allowed(x) ==> '\0' !in x
    requires AreNamed(a) && AreNamed(b) && AllAllowed(a, allowed) && AllAllowed(b, allowed)
    ensures Input(a) == Input(b) <==> a == b
  {
    forall s, next, t, other | s in a && next in a && t in b && other in b ensures ReadsOneWay(s, next, t, other) {
      AllowedReadOneWay(allowed, s, next, t, other);
    }
    UnambiguousListsShow(a, b);
  }
}
