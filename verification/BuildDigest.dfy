/** The build fingerprint's input (`chiefd-daemon/build.rs`): every hashed source
    under the dependency directories, in path order, path and bytes alternating. */
module BuildDigest {
  import opened Ordering
  import opened Paths

  type Bytes = string

  /** What `metadata` finds at a path: nothing, a file, or a directory, whose
      entries have no order of their own. */
  datatype Node = Missing | File(bytes: Bytes) | Dir(entries: map<string, Node>)

  /** A hashed file. */
  datatype Source = Source(path: Path, bytes: Bytes)

  /** A path the walk starts from. */
  datatype Start = Start(path: Path, node: Node)

  function FileName(path: Path): string { if path == [] then "" else path[|path| - 1] }

  predicate EndsWith(s: string, end: string) { |end| <= |s| && s[|s| - |end|..] == end }

  /** `is_hashed_source_input`; a name that starts with its only dot has no extension. */
  predicate IsHashed(path: Path) {
    var name := FileName(path);
    name != "target" && ((EndsWith(name, ".rs") && name != ".rs") || name == "Cargo.toml" || name == "Cargo.lock")
  }

  /** The hashed files at and below a path. */
  function SourcesIn(path: Path, node: Node): set<Source>
    decreases node
  {
    match node
    case Missing => {}
    case File(bytes) => if IsHashed(path) then {Source(path, bytes)} else {}
    case Dir(entries) =>
      if FileName(path) == "target" then {}
      else set name, s | name in entries && s in SourcesIn(path + [name], entries[name]) :: s
  }

  lemma {:induction false} SourcesAreBelow(path: Path, node: Node, s: Source)
    requires s in SourcesIn(path, node)
    ensures path <= s.path
    decreases node
  {
    if node.Dir? {
      var name :| name in node.entries && s in SourcesIn(path + [name], node.entries[name]);
      SourcesAreBelow(path + [name], node.entries[name], s);
      assert path <= path + [name] <= s.path;
    }
  }

  /** What stands below a node, going down these names. */
  function NodeAt(node: Node, names: Path): Node
    decreases |names|
  {
    if |names| == 0 then node
    else if node.Dir? && names[0] in node.entries then NodeAt(node.entries[names[0]], names[1..])
    else Missing
  }

  /** A Rust source or a Cargo file. */
  ghost predicate HasSourceName(name: string) {
    name == "Cargo.toml" || name == "Cargo.lock" || exists stem :: stem != "" && name == stem + ".rs"
  }

  /** `s` is a Rust source or a Cargo file that stands below the node at `path`, and
      nothing from that node down to it is named `target`. */
  ghost predicate IsSourceBelow(path: Path, node: Node, s: Source) {
    && path <= s.path && NodeAt(node, s.path[|path|..]) == File(s.bytes)
    && FileName(path) != "target" && "target" !in s.path[|path|..] && HasSourceName(FileName(s.path))
  }

  lemma HashedNames(path: Path)
    ensures IsHashed(path) <==> HasSourceName(FileName(path))
  {
    var name := FileName(path);
    if IsHashed(path) && EndsWith(name, ".rs") {
      assert name == name[..|name| - 3] + ".rs";
    }
    if stem :| stem != "" && name == stem + ".rs" {
      assert name[|name| - 3..] == ".rs";
      assert name != "target" by { assert name[|name| - 1] == 's' && "target"[5] == 't'; }
    }
  }

  lemma StepDown(path: Path, s: Source, name: string)
    requires path + [name] <= s.path
    ensures path <= s.path && s.path[|path|..] == [name] + s.path[|path + [name]|..]
  {
    assert s.path[..|path| + 1] == path + [name];
    assert s.path[|path|] == name;
  }

  /** The hashed files below a node are its Rust sources and Cargo files outside `target`,
      every one of them and nothing else. */
  lemma {:induction false} ListedIffSource(path: Path, node: Node, s: Source)
    ensures s in SourcesIn(path, node) <==> IsSourceBelow(path, node, s)
    decreases node
  {
    match node
    case Missing =>
    case File(bytes) => FileIsListed(path, bytes, s);
    case Dir(entries) =>
      if FileName(path) != "target" {
        forall name | name in entries
          ensures s in SourcesIn(path + [name], entries[name]) <==> IsSourceBelow(path + [name], entries[name], s)
        {
          ListedIffSource(path + [name], entries[name], s);
        }
        SourceIsInAnEntry(path, node, s);
      }
  }

  lemma FileIsListed(path: Path, bytes: Bytes, s: Source)
    ensures s in SourcesIn(path, File(bytes)) <==> IsSourceBelow(path, File(bytes), s)
  {
    HashedNames(path);
    if path <= s.path && |s.path| == |path| { assert s.path == path && s.path[|path|..] == []; }
    if s.path == path { assert s.path[|path|..] == []; }
  }

  lemma SourceIsInAnEntry(path: Path, dir: Node, s: Source)
    requires dir.Dir? && FileName(path) != "target"
    ensures IsSourceBelow(path, dir, s)
            <==> exists name :: name in dir.entries && IsSourceBelow(path + [name], dir.entries[name], s)
  {
    if IsSourceBelow(path, dir, s) {
      var rest := s.path[|path|..];
      assert |rest| > 0 && rest[0] in rest;
      assert path + [rest[0]] == s.path[..|path| + 1];
      StepDown(path, s, rest[0]);
      assert s.path[|path + [rest[0]]|..] == rest[1..];
      assert IsSourceBelow(path + [rest[0]], dir.entries[rest[0]], s);
    }
    if name :| name in dir.entries && IsSourceBelow(path + [name], dir.entries[name], s) {
      StepDown(path, s, name);
      var rest := s.path[|path|..];
      assert rest[0] == name && rest[1..] == s.path[|path + [name]|..];
    }
  }

  // ------------------------------------------------------------------ the walk

  /** How many of the starting points have `s` at or below them. */
  function Count(starts: seq<Start>, s: Source): nat {
    if starts == [] then 0
    else
      var last := starts[|starts| - 1];
      Count(starts[..|starts| - 1], s) + if s in SourcesIn(last.path, last.node) then 1 else 0
  }

  lemma CountOfOneMore(starts: seq<Start>, x: Start, s: Source)
    ensures Count(starts + [x], s) == Count(starts, s) + if s in SourcesIn(x.path, x.node) then 1 else 0
  {
    assert (starts + [x])[..|starts|] == starts;
  }

  lemma {:induction false} CountedIffSource(starts: seq<Start>, s: Source)
    ensures Count(starts, s) > 0 <==> exists t :: t in starts && IsSourceBelow(t.path, t.node, s)
  {
    if starts != [] {
      var init, last := starts[..|starts| - 1], starts[|starts| - 1];
      CountedIffSource(init, s);
      ListedIffSource(last.path, last.node, s);
      assert forall t :: t in starts <==> t in init || t == last;
    }
  }

  ghost function Size(node: Node): nat
    decreases node, if node.Dir? then |node.entries| + 1 else 0
  {
    1 + if node.Dir? then SizeOf(node, node.entries.Keys) else 0
  }

  ghost function SizeOf(dir: Node, names: set<string>): nat
    requires dir.Dir? && names <= dir.entries.Keys
    decreases dir, |names|
  {
    if names == {} then 0
    else
      var name :| name in names;
      CardinalityDrops(names, name);
      Size(dir.entries[name]) + SizeOf(dir, names - {name})
  }

  lemma CardinalityDrops(names: set<string>, name: string)
    requires name in names
    ensures |names - {name}| < |names|
  {
  }

  lemma {:induction false} SizeOfAny(dir: Node, names: set<string>, name: string)
    requires dir.Dir? && names <= dir.entries.Keys && name in names
    ensures SizeOf(dir, names) == Size(dir.entries[name]) + SizeOf(dir, names - {name})
    decreases |names|
  {
    var first :| first in names && SizeOf(dir, names) == Size(dir.entries[first]) + SizeOf(dir, names - {first});
    if first != name {
      SizeOfAny(dir, names - {first}, name);
      SizeOfAny(dir, names - {name}, first);
      assert names - {first} - {name} == names - {name} - {first};
    }
  }

  ghost function StackSize(stack: seq<Start>): nat {
    if stack == [] then 0 else StackSize(stack[..|stack| - 1]) + Size(stack[|stack| - 1].node)
  }

  lemma StackSizeOfOneMore(stack: seq<Start>, x: Start)
    ensures StackSize(stack + [x]) == StackSize(stack) + Size(x.node)
  {
    assert (stack + [x])[..|stack|] == stack;
  }

  ghost predicate InSome(path: Path, dir: Node, names: set<string>, s: Source)
    requires dir.Dir? && names <= dir.entries.Keys
  {
    exists name :: name in names && s in SourcesIn(path + [name], dir.entries[name])
  }

  lemma InSomeOfOneMore(path: Path, dir: Node, names: set<string>, name: string, s: Source)
    requires dir.Dir? && names <= dir.entries.Keys && name in dir.entries && name !in names
    ensures InSome(path, dir, names + {name}, s)
            <==> InSome(path, dir, names, s) || s in SourcesIn(path + [name], dir.entries[name])
    ensures !(InSome(path, dir, names, s) && s in SourcesIn(path + [name], dir.entries[name]))
  {
    if InSome(path, dir, names, s) && s in SourcesIn(path + [name], dir.entries[name]) {
      var other :| other in names && s in SourcesIn(path + [other], dir.entries[other]);
      SourcesAreBelow(path + [name], dir.entries[name], s);
      SourcesAreBelow(path + [other], dir.entries[other], s);
    }
  }

  /** `read_dir`: the entries of a directory are pushed in any order at all. */
  method PushEntries(path: Path, dir: Node, stack: seq<Start>) returns (pushed: seq<Start>)
    requires dir.Dir? && FileName(path) != "target"
    ensures forall s :: Count(pushed, s) == Count(stack, s) + if s in SourcesIn(path, dir) then 1 else 0
    ensures StackSize(pushed) + 1 == StackSize(stack) + Size(dir)
  {
    pushed := stack;
    var rest := dir.entries.Keys;
    ghost var done: set<string> := {};
    while rest != {}
      invariant rest !! done && rest + done == dir.entries.Keys
      invariant forall s :: Count(pushed, s) == Count(stack, s) + if InSome(path, dir, done, s) then 1 else 0
      invariant StackSize(pushed) + SizeOf(dir, rest) == StackSize(stack) + SizeOf(dir, dir.entries.Keys)
      decreases rest
    {
      var name :| name in rest;
      var child := Start(path + [name], dir.entries[name]);
      SizeOfAny(dir, rest, name);
      StackSizeOfOneMore(pushed, child);
      forall s
        ensures Count(pushed + [child], s) == Count(stack, s) + if InSome(path, dir, done + {name}, s) then 1 else 0
      {
        CountOfOneMore(pushed, child, s);
        InSomeOfOneMore(path, dir, done, name, s);
      }
      rest, done, pushed := rest - {name}, done + {name}, pushed + [child];
    }
    assert done == dir.entries.Keys;
    forall s ensures s in SourcesIn(path, dir) <==> InSome(path, dir, done, s) {}
  }

  /** The loop of the walk. */
  method FindSources(starts: seq<Start>) returns (files: seq<Source>)
    ensures forall s :: multiset(files)[s] == Count(starts, s)
  {
    files := [];
    var stack := starts;
    while stack != []
      invariant forall s :: multiset(files)[s] + Count(stack, s) == Count(starts, s)
      decreases StackSize(stack)
    {
      var top := stack[|stack| - 1];
      var below := stack[..|stack| - 1];
      assert stack == below + [top];
      StackSizeOfOneMore(below, top);
      forall s ensures Count(stack, s) == Count(below, s) + if s in SourcesIn(top.path, top.node) then 1 else 0 {
        CountOfOneMore(below, top, s);
      }
      stack := below;
      if top.node.Dir? {
        if FileName(top.path) != "target" {
          stack := PushEntries(top.path, top.node, stack);
        }
      } else if top.node.File? && IsHashed(top.path) {
        files := files + [Source(top.path, top.node.bytes)];
      }
    }
  }

  /** The walk of `hash_dependency_sources`: each Rust source and Cargo file outside
      `target` once per starting point it lies under, and nothing else. */
  method WalkSources(starts: seq<Start>) returns (files: seq<Source>)
    ensures forall s :: multiset(files)[s] == Count(starts, s)
    ensures forall s :: s in files <==> exists t :: t in starts && IsSourceBelow(t.path, t.node, s)
  {
    files := FindSources(starts);
    forall s ensures s in files <==> exists t :: t in starts && IsSourceBelow(t.path, t.node, s) {
      CountedIffSource(starts, s);
      assert s in files <==> s in multiset(files);
    }
  }

  predicate ByPath(a: Source, b: Source) { PathLeq(a.path, b.path) }

  /** `file.strip_prefix(repo_root).unwrap_or(file)`, as text. */
  function Text(root: Path, path: Path): string {
    if root <= path then Join(path[|root|..]) else "/" + Join(path)
  }

  /** The bytes fed to the hasher. */
  function Stream(root: Path, files: seq<Source>): Bytes {
    if files == [] then ""
    else Text(root, files[0].path) + "\0" + files[0].bytes + Stream(root, files[1..])
  }

  /** Below the root a file is fed by its path from there, its names joined by slashes,
      and outside it by its whole path; then a NUL, then its bytes, file after file. */
  lemma StreamIsPathsAndBytes(root: Path, s: Source, rest: seq<Source>)
    ensures Stream(root, []) == ""
    ensures Stream(root, [Source(root + s.path, s.bytes)] + rest)
            == Join(s.path) + "\0" + s.bytes + Stream(root, rest)
    ensures !(root <= s.path) ==>
              Stream(root, [s] + rest) == "/" + Join(s.path) + "\0" + s.bytes + Stream(root, rest)
  {
    var below := Source(root + s.path, s.bytes);
    assert (root + s.path)[|root|..] == s.path;
    assert ([below] + rest)[1..] == rest && ([s] + rest)[1..] == rest;
  }

  ghost predicate IsSourceList(starts: seq<Start>, files: seq<Source>) {
    Sorted(ByPath, files) && forall s :: multiset(files)[s] == Count(starts, s)
  }

  lemma SourcesAreOrdered()
    ensures TotalPreorder(ByPath)
  {
    PathsAreOrdered();
    forall x, y ensures ByPath(x, y) || ByPath(y, x) { assert PathLeq(x.path, y.path) || PathLeq(y.path, x.path); }
    forall x, y, z | ByPath(x, y) && ByPath(y, z) ensures ByPath(x, z) {
      assert PathLeq(x.path, y.path) && PathLeq(y.path, z.path);
    }
  }

  lemma Associate(x: Bytes, y: Bytes, z: Bytes)
    ensures (x + y) + z == x + (y + z)
  {
  }

  lemma StreamOfOneMore(root: Path, files: seq<Source>, i: nat)
    requires i < |files|
    ensures Stream(root, files[i..])
         == Text(root, files[i].path) + "\0" + files[i].bytes + Stream(root, files[i + 1..])
  {
    assert files[i..][1..] == files[i + 1..];
  }

  /** The loop of `hasher.update` calls. */
  method FeedHasher(root: Path, files: seq<Source>) returns (stream: Bytes)
    ensures stream == Stream(root, files)
  {
    stream := "";
    var i := 0;
    assert files[0..] == files;
    while i < |files|
      invariant 0 <= i <= |files| && stream + Stream(root, files[i..]) == Stream(root, files)
    {
      var relative, bytes := Text(root, files[i].path), files[i].bytes;
      StreamOfOneMore(root, files, i);
      ghost var rest := Stream(root, files[i + 1..]);
      Associate(stream, relative + "\0" + bytes, rest);
      Associate(stream, relative + "\0", bytes);
      Associate(stream, relative, "\0");
      stream := stream + relative;
      stream := stream + "\0";
      stream := stream + bytes;
      i := i + 1;
    }
    assert Stream(root, files[i..]) == "";
  }

  /** `hash_dependency_sources`, up to the digest itself. */
  method HashInput(root: Path, starts: seq<Start>) returns (stream: Bytes)
    ensures exists files ::
              && IsSourceList(starts, files) && stream == Stream(root, files)
              && forall s :: s in files <==> exists t :: t in starts && IsSourceBelow(t.path, t.node, s)
  {
    var found := WalkSources(starts);
    var files := Sort(ByPath, found);
    SourcesAreOrdered();
    SortIsSorted(ByPath, found);
    stream := FeedHasher(root, files);
    assert IsSourceList(starts, files);
    assert forall s :: s in files <==> s in multiset(files);
    assert forall s :: s in found <==> s in multiset(found);
  }

  // ------------------------------------------------- the checkout does not matter

  /** The same starting points in a checkout at `root`. */
  function Place(root: Path, tree: seq<Start>): seq<Start> {
    seq(|tree|, i requires 0 <= i < |tree| => Start(root + tree[i].path, tree[i].node))
  }

  function MoveTo(root: Path, s: Source): Source { Source(root + s.path, s.bytes) }

  lemma {:induction false} SourcesMove(root: Path, path: Path, node: Node, s: Source)
    requires path != []
    ensures MoveTo(root, s) in SourcesIn(root + path, node) <==> s in SourcesIn(path, node)
    decreases node
  {
    assert FileName(root + path) == FileName(path);
    match node
    case Missing =>
    case File(bytes) =>
      assert root + s.path == root + path <==> s.path == path by {
        if root + s.path == root + path {
          assert (root + s.path)[|root|..] == s.path && (root + path)[|root|..] == path;
        }
      }
    case Dir(entries) =>
      forall name | name in entries
        ensures MoveTo(root, s) in SourcesIn(root + path + [name], entries[name])
                <==> s in SourcesIn(path + [name], entries[name])
      {
        SourcesMove(root, path + [name], entries[name], s);
        assert root + path + [name] == root + (path + [name]);
      }
  }

  lemma {:induction false} CountMoves(root: Path, tree: seq<Start>, s: Source)
    requires forall t :: t in tree ==> t.path != []
    ensures Count(Place(root, tree), MoveTo(root, s)) == Count(tree, s)
  {
    if tree != [] {
      var init, last := tree[..|tree| - 1], tree[|tree| - 1];
      assert Place(root, tree)[..|tree| - 1] == Place(root, init);
      assert last in tree && forall t :: t in init ==> t in tree;
      CountMoves(root, init, s);
      SourcesMove(root, last.path, last.node, s);
    }
  }

  lemma {:induction false} CountedIsPlaced(root: Path, tree: seq<Start>, s: Source)
    requires Count(Place(root, tree), s) > 0
    ensures root <= s.path
  {
    var init, last := tree[..|tree| - 1], tree[|tree| - 1];
    assert Place(root, tree)[..|tree| - 1] == Place(root, init);
    if s in SourcesIn(root + last.path, last.node) {
      SourcesAreBelow(root + last.path, last.node, s);
      assert root <= root + last.path <= s.path;
    } else {
      CountedIsPlaced(root, init, s);
    }
  }

  /** Every path of `files` below `root`, made relative to it. */
  function Strip(root: Path, files: seq<Source>): seq<Source>
    requires forall s :: s in files ==> root <= s.path
  {
    seq(|files|, i requires 0 <= i < |files| =>
      assert files[i] in files; Source(files[i].path[|root|..], files[i].bytes))
  }

  lemma {:induction false} StreamOfStripped(root: Path, files: seq<Source>)
    requires forall s :: s in files ==> root <= s.path
    ensures Stream([], Strip(root, files)) == Stream(root, files)
  {
    if files != [] {
      assert files[0] in files && forall s :: s in files[1..] ==> s in files;
      StreamOfStripped(root, files[1..]);
      assert Strip(root, files)[1..] == Strip(root, files[1..]);
      assert Strip(root, files)[0].path[0..] == Strip(root, files)[0].path;
    }
  }

  lemma {:induction false} ContentsOfStripped(root: Path, files: seq<Source>, s: Source)
    requires forall x :: x in files ==> root <= x.path
    ensures multiset(Strip(root, files))[s] == multiset(files)[MoveTo(root, s)]
  {
    if files != [] {
      var init, last := files[..|files| - 1], files[|files| - 1];
      assert last in files && forall x :: x in init ==> x in files;
      ContentsOfStripped(root, init, s);
      assert files == init + [last];
      assert Strip(root, files) == Strip(root, init) + [Source(last.path[|root|..], last.bytes)];
      assert last.path == root + last.path[|root|..];
      assert (root + s.path)[|root|..] == s.path;
    }
  }

  lemma StrippedIsSorted(root: Path, files: seq<Source>)
    requires Sorted(ByPath, files) && forall s :: s in files ==> root <= s.path
    ensures Sorted(ByPath, Strip(root, files))
  {
    var stripped := Strip(root, files);
    forall i, j | 0 <= i < j < |files| ensures ByPath(stripped[i], stripped[j]) {
      assert files[i] in files && files[j] in files && ByPath(files[i], files[j]);
      LexIgnoresPrefix(NameLeq, root, stripped[i].path, stripped[j].path);
      assert root + stripped[i].path == files[i].path && root + stripped[j].path == files[j].path;
    }
  }

  /** One file system: a path has one content. */
  ghost predicate IsOneTree(tree: seq<Start>) {
    && (forall t :: t in tree ==> t.path != [])
    && forall a, b :: Count(tree, a) > 0 && Count(tree, b) > 0 && a.path == b.path ==> a == b
  }

  /** What a checkout's sorted files look like from its root. */
  lemma StrippedList(root: Path, tree: seq<Start>, files: seq<Source>) returns (relative: seq<Source>)
    requires IsOneTree(tree) && IsSourceList(Place(root, tree), files)
    ensures IsSourceList(tree, relative) && Stream([], relative) == Stream(root, files)
  {
    forall s | s in files ensures root <= s.path {
      assert s in multiset(files);
      CountedIsPlaced(root, tree, s);
    }
    relative := Strip(root, files);
    StreamOfStripped(root, files);
    StrippedIsSorted(root, files);
    forall s ensures multiset(relative)[s] == Count(tree, s) {
      ContentsOfStripped(root, files, s);
      CountMoves(root, tree, s);
    }
  }

  lemma SourceListIsUnique(tree: seq<Start>, a: seq<Source>, b: seq<Source>)
    requires IsOneTree(tree) && IsSourceList(tree, a) && IsSourceList(tree, b)
    ensures a == b
  {
    SourcesAreOrdered();
    PathsAreOrdered();
    assert multiset(a) == multiset(b);
    forall x, y | x in a && y in a && ByPath(x, y) && ByPath(y, x) ensures x == y {
      assert x in multiset(a) && y in multiset(a);
      assert PathLeq(x.path, y.path) && PathLeq(y.path, x.path);
    }
    SortedIsUnique(ByPath, a, b);
  }

  /** Two checkouts of one tree, at different roots and walked in any order, feed
      the hasher the same bytes. */
  lemma CheckoutsAgree(tree: seq<Start>, root: Path, files: seq<Source>, otherRoot: Path, otherFiles: seq<Source>)
    requires IsOneTree(tree)
    requires IsSourceList(Place(root, tree), files) && IsSourceList(Place(otherRoot, tree), otherFiles)
    ensures Stream(root, files) == Stream(otherRoot, otherFiles)
  {
    var a := StrippedList(root, tree, files);
    var b := StrippedList(otherRoot, tree, otherFiles);
    SourceListIsUnique(tree, a, b);
  }
}
