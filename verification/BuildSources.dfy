/** A change on disk to a source the build reads, seen through the walk: one file
    written anew changes the bytes the digest is fed. */
module BuildSources {
  import opened Ordering
  import opened Paths
  import opened BuildDigest

  // ----------------------------------------------------------- writing one file

  /** The file these names lead to, if there is one, holds other bytes. */
  function Write(node: Node, names: Path, bytes: Bytes): Node
    decreases |names|
  {
    if |names| == 0 then if node.File? then File(bytes) else node
    else if node.Dir? && names[0] in node.entries then
      Dir(node.entries[names[0] := Write(node.entries[names[0]], names[1..], bytes)])
    else node
  }

  /** One write, as every starting point sees it. */
  function Written(tree: seq<Start>, file: Path, bytes: Bytes): seq<Start> {
    seq(|tree|, i requires 0 <= i < |tree| => WrittenAt(tree[i], file, bytes))
  }

  function WrittenAt(t: Start, file: Path, bytes: Bytes): Start {
    if t.path <= file then Start(t.path, Write(t.node, file[|t.path|..], bytes)) else t
  }

  lemma {:induction false} NodeAtWritten(node: Node, names: Path, bytes: Bytes, other: Path, x: Bytes)
    ensures NodeAt(Write(node, names, bytes), other) == File(x)
            <==> if other == names then NodeAt(node, names).File? && x == bytes else NodeAt(node, other) == File(x)
    decreases |names|
  {
    if |names| != 0 && node.Dir? && names[0] in node.entries && |other| != 0 && other[0] == names[0] {
      NodeAtWritten(node.entries[names[0]], names[1..], bytes, other[1..], x);
      assert other == [other[0]] + other[1..] && names == [names[0]] + names[1..];
    }
  }

  /** Written, the file is listed with its new bytes wherever it was listed, and nothing
      else changes. */
  lemma SourcesWritten(t: Start, file: Path, was: Bytes, bytes: Bytes, s: Source)
    requires forall x :: Source(file, x) in SourcesIn(t.path, t.node) ==> x == was
    ensures var u := WrittenAt(t, file, bytes);
            s in SourcesIn(u.path, u.node)
            <==> if s.path == file then s.bytes == bytes && Source(file, was) in SourcesIn(t.path, t.node)
                 else s in SourcesIn(t.path, t.node)
  {
    var u := WrittenAt(t, file, bytes);
    ListedIffSource(u.path, u.node, s);
    ListedIffSource(t.path, t.node, s);
    ListedIffSource(t.path, t.node, Source(file, was));
    if t.path <= file && t.path <= s.path {
      var names, other := file[|t.path|..], s.path[|t.path|..];
      NodeAtWritten(t.node, names, bytes, other, s.bytes);
      assert names == other <==> file == s.path by {
        assert file == t.path + names && s.path == t.path + other;
      }
      OnlyThisContent(t, file, was);
    }
  }

  lemma OnlyThisContent(t: Start, file: Path, was: Bytes)
    requires t.path <= file && forall x :: Source(file, x) in SourcesIn(t.path, t.node) ==> x == was
    ensures var found := NodeAt(t.node, file[|t.path|..]);
            found.File? && IsSourceBelow(t.path, t.node, Source(file, found.bytes)) ==> found == File(was)
  {
    var found := NodeAt(t.node, file[|t.path|..]);
    if found.File? { ListedIffSource(t.path, t.node, Source(file, found.bytes)); }
  }

  // ---------------------------------------------------------- what the walk lists

  /** No starting point lists other content for this file. */
  ghost predicate Holds(tree: seq<Start>, file: Path, was: Bytes) {
    forall t, x :: t in tree && Source(file, x) in SourcesIn(t.path, t.node) ==> x == was
  }

  lemma {:induction false} CountWritten(tree: seq<Start>, file: Path, was: Bytes, bytes: Bytes, s: Source)
    requires Holds(tree, file, was)
    ensures Count(Written(tree, file, bytes), s)
            == if s.path != file then Count(tree, s)
               else if s.bytes == bytes then Count(tree, Source(file, was)) else 0
  {
    if tree != [] {
      var init, last := tree[..|tree| - 1], tree[|tree| - 1];
      assert last in tree && forall t :: t in init ==> t in tree;
      assert Written(tree, file, bytes) == Written(init, file, bytes) + [WrittenAt(last, file, bytes)];
      CountWritten(init, file, was, bytes, s);
      CountOfOneMore(Written(init, file, bytes), WrittenAt(last, file, bytes), s);
      SourcesWritten(last, file, was, bytes, s);
    }
  }

  /** The same list with the new bytes. */
  function Rewritten(files: seq<Source>, file: Path, bytes: Bytes): seq<Source> {
    if files == [] then []
    else
      var last := files[|files| - 1];
      Rewritten(files[..|files| - 1], file, bytes) + [if last.path == file then Source(file, bytes) else last]
  }

  /** The same files in the same places, but for the bytes of this one. */
  ghost predicate SameBut(a: seq<Source>, b: seq<Source>, file: Path, was: Bytes, bytes: Bytes) {
    && |a| == |b|
    && forall i :: 0 <= i < |a| ==>
         if a[i].path == file then a[i].bytes == was && b[i] == Source(file, bytes) else a[i] == b[i]
  }

  lemma {:induction false} RewrittenIsSameBut(files: seq<Source>, file: Path, was: Bytes, bytes: Bytes)
    requires forall f :: f in files && f.path == file ==> f.bytes == was
    ensures SameBut(files, Rewritten(files, file, bytes), file, was, bytes)
  {
    if files != [] {
      var init := files[..|files| - 1];
      assert forall f :: f in init ==> f in files;
      RewrittenIsSameBut(init, file, was, bytes);
      assert files[|files| - 1] in files;
    }
  }

  lemma HowOften(s: seq<Source>, x: Source, y: Source)
    ensures multiset(s + [x])[y] == multiset(s)[y] + if x == y then 1 else 0
  {
  }

  lemma {:induction false} ContentsRewritten(files: seq<Source>, file: Path, was: Bytes, bytes: Bytes, s: Source)
    requires forall f :: f in files && f.path == file ==> f.bytes == was
    ensures multiset(Rewritten(files, file, bytes))[s]
            == if s.path != file then multiset(files)[s]
               else if s.bytes == bytes then multiset(files)[Source(file, was)] else 0
  {
    if files != [] {
      var init, last := files[..|files| - 1], files[|files| - 1];
      assert files == init + [last] && last in files && forall f :: f in init ==> f in files;
      ContentsRewritten(init, file, was, bytes, s);
      HowOften(init, last, s);
      HowOften(init, last, Source(file, was));
      HowOften(Rewritten(init, file, bytes), if last.path == file then Source(file, bytes) else last, s);
    }
  }

  lemma WrittenIsOneTree(tree: seq<Start>, file: Path, was: Bytes, bytes: Bytes)
    requires IsOneTree(tree) && Holds(tree, file, was)
    ensures IsOneTree(Written(tree, file, bytes))
  {
    var written := Written(tree, file, bytes);
    forall a, b | Count(written, a) > 0 && Count(written, b) > 0 && a.path == b.path ensures a == b {
      CountWritten(tree, file, was, bytes, a);
      CountWritten(tree, file, was, bytes, b);
    }
  }

  /** The walk of the written tree lists the same files, this one with its new bytes. */
  lemma ListWritten(tree: seq<Start>, file: Path, was: Bytes, bytes: Bytes, files: seq<Source>, later: seq<Source>)
    requires IsOneTree(tree) && Holds(tree, file, was)
    requires IsSourceList(tree, files) && IsSourceList(Written(tree, file, bytes), later)
    requires forall f :: f in files && f.path == file ==> f.bytes == was
    ensures later == Rewritten(files, file, bytes)
  {
    var list := Rewritten(files, file, bytes);
    RewrittenIsSameBut(files, file, was, bytes);
    forall i, j | 0 <= i < j < |list| ensures ByPath(list[i], list[j]) {
      assert ByPath(files[i], files[j]);
    }
    forall s ensures multiset(list)[s] == Count(Written(tree, file, bytes), s) {
      ContentsRewritten(files, file, was, bytes, s);
      CountWritten(tree, file, was, bytes, s);
    }
    WrittenIsOneTree(tree, file, was, bytes);
    SourceListIsUnique(Written(tree, file, bytes), list, later);
  }

  // ------------------------------------------------------------ what the digest is fed

  function Piece(root: Path, s: Source): Bytes { Text(root, s.path) + "\0" + s.bytes }

  lemma {:induction false} StreamOfLast(root: Path, files: seq<Source>, s: Source)
    ensures Stream(root, files + [s]) == Stream(root, files) + Piece(root, s)
  {
    if files == [] {
      assert files + [s] == [s];
      assert Stream(root, [s]) == Piece(root, s) + "";
    } else {
      assert (files + [s])[1..] == files[1..] + [s];
      StreamOfLast(root, files[1..], s);
      Associate(Piece(root, files[0]), Stream(root, files[1..]), Piece(root, s));
    }
  }

  ghost predicate Lists(files: seq<Source>, file: Path) { exists f :: f in files && f.path == file }

  /** Shorter bytes make a shorter stream. */
  lemma {:induction false} StreamLength(root: Path, a: seq<Source>, b: seq<Source>,
                                        file: Path, was: Bytes, bytes: Bytes)
    requires SameBut(a, b, file, was, bytes) && |was| <= |bytes|
    ensures |Stream(root, a)| <= |Stream(root, b)|
    ensures |was| < |bytes| && Lists(a, file) ==> |Stream(root, a)| < |Stream(root, b)|
  {
    if a != [] {
      var n := |a| - 1;
      assert a == a[..n] + [a[n]] && b == b[..n] + [b[n]];
      StreamLength(root, a[..n], b[..n], file, was, bytes);
      StreamOfLast(root, a[..n], a[n]);
      StreamOfLast(root, b[..n], b[n]);
    }
  }

  lemma SameEnds(a: Bytes, b: Bytes, x: Bytes, y: Bytes)
    requires a + x == b + y && |x| == |y|
    ensures a == b && x == y
  {
    assert |a| == |b|;
    assert a == (a + x)[..|a|] && b == (b + y)[..|b|];
    assert x == (a + x)[|a|..] && y == (b + y)[|b|..];
  }

  lemma PieceShowsBytes(root: Path, file: Path, was: Bytes, bytes: Bytes)
    requires Piece(root, Source(file, was)) == Piece(root, Source(file, bytes))
    ensures was == bytes
  {
    var named := Text(root, file) + "\0";
    assert (named + was)[|named|..] == was && (named + bytes)[|named|..] == bytes;
  }

  /** Bytes of one length feed one stream only if they are the same. */
  lemma {:induction false} SameStreamSameBytes(root: Path, a: seq<Source>, b: seq<Source>,
                                               file: Path, was: Bytes, bytes: Bytes)
    requires SameBut(a, b, file, was, bytes) && |was| == |bytes| && Lists(a, file)
    requires Stream(root, a) == Stream(root, b)
    ensures was == bytes
  {
    var n := |a| - 1;
    assert a == a[..n] + [a[n]] && b == b[..n] + [b[n]];
    StreamOfLast(root, a[..n], a[n]);
    StreamOfLast(root, b[..n], b[n]);
    assert |Piece(root, a[n])| == |Piece(root, b[n])|;
    SameEnds(Stream(root, a[..n]), Stream(root, b[..n]), Piece(root, a[n]), Piece(root, b[n]));
    if a[n].path == file {
      PieceShowsBytes(root, file, was, bytes);
    } else {
      SameStreamSameBytes(root, a[..n], b[..n], file, was, bytes);
    }
  }

  lemma EditedListsDiffer(root: Path, a: seq<Source>, b: seq<Source>, file: Path, was: Bytes, bytes: Bytes)
    requires SameBut(a, b, file, was, bytes) && Lists(a, file) && was != bytes
    ensures Stream(root, a) != Stream(root, b)
  {
    if |was| < |bytes| {
      StreamLength(root, a, b, file, was, bytes);
    } else if |bytes| < |was| {
      var f :| f in a && f.path == file;
      var i :| 0 <= i < |a| && a[i] == f;
      assert b[i] in b && b[i].path == file;
      StreamLength(root, b, a, file, bytes, was);
    } else if Stream(root, a) == Stream(root, b) {
      SameStreamSameBytes(root, a, b, file, was, bytes);
    }
  }

  /** Whatever `file` the walk must list, a Rust source or a Cargo file that lies below
      some starting point and outside `target`: writing other bytes to it changes what
      the digest is fed, however many starting points it lies under. */
  lemma WrittenSourceShows(root: Path, tree: seq<Start>, start: Start, file: Path, was: Bytes, bytes: Bytes,
                           files: seq<Source>, later: seq<Source>)
    requires IsOneTree(tree) && start in tree && IsSourceBelow(start.path, start.node, Source(file, was))
    requires was != bytes
    requires IsSourceList(tree, files) && IsSourceList(Written(tree, file, bytes), later)
    ensures Stream(root, files) != Stream(root, later)
  {
    var s := Source(file, was);
    CountedIffSource(tree, s);
    assert s in multiset(files) && s in files;
    OneContent(tree, files, s);
    ListWritten(tree, file, was, bytes, files, later);
    RewrittenIsSameBut(files, file, was, bytes);
    EditedListsDiffer(root, files, later, file, was, bytes);
  }

  lemma OneContent(tree: seq<Start>, files: seq<Source>, s: Source)
    requires IsOneTree(tree) && IsSourceList(tree, files) && Count(tree, s) > 0
    ensures Holds(tree, s.path, s.bytes)
    ensures forall f :: f in files && f.path == s.path ==> f.bytes == s.bytes
  {
    forall t, x | t in tree && Source(s.path, x) in SourcesIn(t.path, t.node) ensures x == s.bytes {
      ListedIffSource(t.path, t.node, Source(s.path, x));
      CountedIffSource(tree, Source(s.path, x));
    }
    forall f | f in files && f.path == s.path ensures f.bytes == s.bytes { assert f in multiset(files); }
  }
}
