/** The workspace dependency closure (`chiefd-daemon/build.rs`): a worklist over
    `cargo metadata`'s graph, and the sorted manifest directories of what it reached. */
module BuildGraph {
  import opened Options
  import opened Ordering
  import opened Paths

  /** The fields read from `cargo metadata`; `None` is a field that is absent or of
      another JSON type. */
  datatype Package = Package(id: Option<string>, name: Option<string>, manifestPath: Option<Path>)
  datatype Node = Node(id: Option<string>, dependencies: Option<seq<Option<string>>>)
  datatype Metadata = Metadata(packages: Option<seq<Package>>, nodes: Option<seq<Node>>,
                               workspaceMembers: Option<seq<Option<string>>>)

  datatype Error =
    | PackagesMissing | PackageIdMissing | ManifestPathMissing | ManifestHasNoParent
    | NoSuchPackage(name: string) | NodesMissing | NodeIdMissing
    | MembersMissing | MemberIsNotAString | NoWorkspaceDirs(name: string)

  datatype Result<T> = Ok(value: T) | Err(error: Error)

  // ------------------------------------------------------------------ the graph

  type Graph = map<string, Node>

  function Dependencies(graph: Graph, id: string): seq<Option<string>> {
    if id in graph && graph[id].dependencies.Some? then graph[id].dependencies.value else []
  }

  /** The dependency entries that are strings. */
  function Names(deps: seq<Option<string>>): seq<string> {
    if deps == [] then []
    else Names(deps[..|deps| - 1]) + if deps[|deps| - 1].Some? then [deps[|deps| - 1].value] else []
  }

  function Successors(graph: Graph, id: string): set<string> {
    set d | d in Names(Dependencies(graph, id))
  }

  /** The graph has a node for `id`, with a dependency list that names `next`. */
  predicate DependsOn(graph: Graph, id: string, next: string) {
    id in graph && graph[id].dependencies.Some? && Some(next) in graph[id].dependencies.value
  }

  lemma {:induction false} NamesAreStrings(deps: seq<Option<string>>, d: string)
    ensures d in Names(deps) <==> Some(d) in deps
  {
    if deps != [] {
      var init, last := deps[..|deps| - 1], deps[|deps| - 1];
      NamesAreStrings(init, d);
      assert deps == init + [last];
    }
  }

  lemma SuccessorsAreDependencies(graph: Graph, id: string, next: string)
    ensures next in Successors(graph, id) <==> DependsOn(graph, id, next)
  {
    NamesAreStrings(Dependencies(graph, id), next);
  }

  /** A chain of dependencies from the first id to the last. */
  ghost predicate IsChain(graph: Graph, chain: seq<string>) {
    chain != [] && forall i :: 0 < i < |chain| ==> DependsOn(graph, chain[i - 1], chain[i])
  }

  ghost predicate Reachable(graph: Graph, root: string, id: string) {
    exists chain :: IsChain(graph, chain) && chain[0] == root && chain[|chain| - 1] == id
  }

  lemma ReachOneMore(graph: Graph, root: string, id: string, next: string)
    requires Reachable(graph, root, id) && next in Successors(graph, id)
    ensures Reachable(graph, root, next)
  {
    var chain :| IsChain(graph, chain) && chain[0] == root && chain[|chain| - 1] == id;
    var longer := chain + [next];
    SuccessorsAreDependencies(graph, id, next);
    assert IsChain(graph, longer) && longer[0] == root && longer[|longer| - 1] == next;
  }

  lemma RootIsReachable(graph: Graph, root: string)
    ensures Reachable(graph, root, root)
  {
    assert IsChain(graph, [root]) && [root][0] == root && [root][|[root]| - 1] == root;
  }

  lemma {:induction false} ClosedSetHoldsChain(graph: Graph, closed: set<string>, chain: seq<string>)
    requires forall id :: id in closed ==> Successors(graph, id) <= closed
    requires IsChain(graph, chain) && chain[0] in closed
    ensures chain[|chain| - 1] in closed
  {
    if |chain| > 1 {
      var init := chain[..|chain| - 1];
      ClosedSetHoldsChain(graph, closed, init);
      SuccessorsAreDependencies(graph, init[|init| - 1], chain[|chain| - 1]);
      assert DependsOn(graph, init[|init| - 1], chain[|chain| - 1]);
    }
  }

  ghost function Mentioned(graph: Graph, root: string): set<string> {
    {root} + set id, d | id in graph && d in Successors(graph, id) :: d
  }

  method PushNames(stack: seq<string>, deps: seq<Option<string>>) returns (pushed: seq<string>)
    ensures pushed == stack + Names(deps)
  {
    pushed := stack;
    for i := 0 to |deps|
      invariant pushed == stack + Names(deps[..i])
    {
      assert deps[..i + 1][..i] == deps[..i];
      if deps[i].Some? {
        pushed := pushed + [deps[i].value];
      }
    }
    assert deps[..|deps|] == deps;
  }

  /** Everything found is reachable, and everything a visited id depends on has
      been found. */
  ghost predicate WalkIsSound(graph: Graph, root: string, visited: set<string>, stack: seq<string>) {
    && (root in visited || root in stack)
    && (forall id :: id in visited || id in stack ==> id in Mentioned(graph, root) && Reachable(graph, root, id))
    && (forall id, d :: id in visited && d in Successors(graph, id) ==> d in visited || d in stack)
  }

  lemma VisitKeepsWalkSound(graph: Graph, root: string, visited: set<string>, stack: seq<string>, id: string)
    requires WalkIsSound(graph, root, visited, stack + [id])
    ensures id in visited ==> WalkIsSound(graph, root, visited, stack)
    ensures WalkIsSound(graph, root, visited + {id}, stack + Names(Dependencies(graph, id)))
  {
    var deps := Names(Dependencies(graph, id));
    assert forall x :: x in stack + [id] <==> x in stack || x == id;
    assert forall x :: x in stack + deps <==> x in stack || x in Successors(graph, id);
    forall d | d in Successors(graph, id) ensures d in Mentioned(graph, root) && Reachable(graph, root, d) {
      ReachOneMore(graph, root, id, d);
    }
  }

  /** The worklist ends on every graph, cyclic ones included, having visited exactly
      what the root reaches. */
  method Reach(graph: Graph, root: string) returns (visited: set<string>)
    ensures forall id :: id in visited <==> Reachable(graph, root, id)
  {
    visited := {};
    var stack := [root];
    RootIsReachable(graph, root);
    while stack != []
      invariant WalkIsSound(graph, root, visited, stack)
      decreases Mentioned(graph, root) - visited, |stack|
    {
      var id := stack[|stack| - 1];
      assert stack == stack[..|stack| - 1] + [id];
      stack := stack[..|stack| - 1];
      VisitKeepsWalkSound(graph, root, visited, stack, id);
      if id !in visited {
        ghost var left := Mentioned(graph, root) - visited;
        assert id in left by { assert id in stack + [id]; }
        visited := visited + {id};
        stack := PushNames(stack, Dependencies(graph, id));
      }
    }
    forall id | Reachable(graph, root, id) ensures id in visited {
      var chain :| IsChain(graph, chain) && chain[0] == root && chain[|chain| - 1] == id;
      ClosedSetHoldsChain(graph, visited, chain);
    }
  }

  // ---------------------------------------------------------- reading metadata

  /** Manifest directories by package id; a later package with the same id wins. */
  function ManifestDirs(packages: seq<Package>): Result<map<string, Path>> {
    if packages == [] then Ok(map[])
    else
      var last := packages[|packages| - 1];
      match ManifestDirs(packages[..|packages| - 1])
      case Err(e) => Err(e)
      case Ok(dirs) =>
        if last.id.None? then Err(PackageIdMissing)
        else if last.manifestPath.None? then Err(ManifestPathMissing)
        else if last.manifestPath.value == [] then Err(ManifestHasNoParent)
        else Ok(dirs[last.id.value := last.manifestPath.value[..|last.manifestPath.value| - 1]])
  }

  function GraphOf(nodes: seq<Node>): Result<Graph> {
    if nodes == [] then Ok(map[])
    else
      var last := nodes[|nodes| - 1];
      match GraphOf(nodes[..|nodes| - 1])
      case Err(e) => Err(e)
      case Ok(graph) => if last.id.None? then Err(NodeIdMissing) else Ok(graph[last.id.value := last])
  }

  function MembersOf(ids: seq<Option<string>>): Result<set<string>> {
    if ids == [] then Ok({})
    else
      var last := ids[|ids| - 1];
      match MembersOf(ids[..|ids| - 1])
      case Err(e) => Err(e)
      case Ok(members) => if last.None? then Err(MemberIsNotAString) else Ok(members + {last.value})
  }

  /** The first package of that name. */
  function FirstNamed(packages: seq<Package>, name: string): Option<string> {
    if packages == [] then None
    else if packages[0].name == Some(name) then packages[0].id
    else FirstNamed(packages[1..], name)
  }

  datatype Inputs = Inputs(dirs: map<string, Path>, root: string, graph: Graph, members: set<string>)

  /** Everything the walk needs, or the first thing found missing. */
  function ReadInputs(m: Metadata, rootName: string): Result<Inputs> {
    if m.packages.None? then Err(PackagesMissing) else
    match ManifestDirs(m.packages.value)
    case Err(e) => Err(e)
    case Ok(dirs) =>
      var root := FirstNamed(m.packages.value, rootName);
      if root.None? then Err(NoSuchPackage(rootName))
      else if m.nodes.None? then Err(NodesMissing) else
      match GraphOf(m.nodes.value)
      case Err(e) => Err(e)
      case Ok(graph) =>
        if m.workspaceMembers.None? then Err(MembersMissing) else
        match MembersOf(m.workspaceMembers.value)
        case Err(e) => Err(e)
        case Ok(members) => Ok(Inputs(dirs, root.value, graph, members))
  }

  // ------------------------------------------------------- what reading them means

  predicate IsWhole(p: Package) { p.id.Some? && p.manifestPath.Some? && p.manifestPath.value != [] }

  /** Packages are read only if each has an id and a manifest somewhere; an id stands for
      the directory of its last package's manifest. */
  lemma {:induction false} ManifestDirOfLast(packages: seq<Package>, k: nat)
    requires ManifestDirs(packages).Ok? && k < |packages|
    ensures var p, dirs := packages[k], ManifestDirs(packages).value;
            && IsWhole(p) && p.id.value in dirs
            && ((forall j :: k < j < |packages| ==> packages[j].id != p.id) ==>
                  p.manifestPath.value == dirs[p.id.value] + p.manifestPath.value[|p.manifestPath.value| - 1..])
  {
    var init, last := packages[..|packages| - 1], packages[|packages| - 1];
    if k < |init| {
      ManifestDirOfLast(init, k);
      assert forall j :: k < j < |init| ==> init[j] == packages[j];
      assert last.id == packages[k].id ==> packages[|init|].id == packages[k].id;
    } else {
      var file := last.manifestPath.value;
      assert file == file[..|file| - 1] + file[|file| - 1..];
    }
  }

  lemma {:induction false} OnlyPackagesHaveDirs(packages: seq<Package>, id: string)
    requires ManifestDirs(packages).Ok? && id in ManifestDirs(packages).value
    ensures exists p :: p in packages && p.id == Some(id)
  {
    var init, last := packages[..|packages| - 1], packages[|packages| - 1];
    if last.id != Some(id) { OnlyPackagesHaveDirs(init, id); }
    assert last in packages && forall p :: p in init ==> p in packages;
  }

  /** Otherwise the first that is not whole is the error. */
  lemma {:induction false} FirstBrokenPackage(packages: seq<Package>) returns (k: nat)
    requires ManifestDirs(packages).Err?
    ensures k < |packages| && !IsWhole(packages[k]) && forall j :: 0 <= j < k ==> IsWhole(packages[j])
    ensures ManifestDirs(packages).error
            == if packages[k].id.None? then PackageIdMissing
               else if packages[k].manifestPath.None? then ManifestPathMissing else ManifestHasNoParent
  {
    var init := packages[..|packages| - 1];
    if ManifestDirs(init).Err? {
      k := FirstBrokenPackage(init);
    } else {
      k := |init|;
      forall j | 0 <= j < k ensures IsWhole(packages[j]) { ManifestDirOfLast(init, j); }
    }
  }

  /** Nodes are read only if each has an id; an id stands for its last node. */
  lemma {:induction false} GraphOfNodes(nodes: seq<Node>)
    ensures GraphOf(nodes).Ok? <==> forall n :: n in nodes ==> n.id.Some?
    ensures GraphOf(nodes).Err? ==> GraphOf(nodes).error == NodeIdMissing
    ensures GraphOf(nodes).Ok? ==> forall id :: id in GraphOf(nodes).value ==>
              GraphOf(nodes).value[id] in nodes && GraphOf(nodes).value[id].id == Some(id)
  {
    if nodes != [] {
      var init, last := nodes[..|nodes| - 1], nodes[|nodes| - 1];
      GraphOfNodes(init);
      assert nodes == init + [last] && last in nodes && forall n :: n in nodes <==> n in init || n == last;
    }
  }

  lemma {:induction false} GraphHoldsLast(nodes: seq<Node>, k: nat)
    requires GraphOf(nodes).Ok? && k < |nodes|
    ensures nodes[k].id.Some? && nodes[k].id.value in GraphOf(nodes).value
    ensures (forall j :: k < j < |nodes| ==> nodes[j].id != nodes[k].id) ==>
              GraphOf(nodes).value[nodes[k].id.value] == nodes[k]
  {
    var init, last := nodes[..|nodes| - 1], nodes[|nodes| - 1];
    if k < |init| {
      GraphHoldsLast(init, k);
      assert forall j :: k < j < |init| ==> init[j] == nodes[j];
      assert last.id == nodes[k].id ==> nodes[|init|].id == nodes[k].id;
    }
  }

  lemma {:induction false} MembersOfIds(ids: seq<Option<string>>)
    ensures MembersOf(ids).Ok? <==> None !in ids
    ensures MembersOf(ids).Err? ==> MembersOf(ids).error == MemberIsNotAString
    ensures MembersOf(ids).Ok? ==> forall id :: id in MembersOf(ids).value <==> Some(id) in ids
  {
    if ids != [] {
      var init, last := ids[..|ids| - 1], ids[|ids| - 1];
      MembersOfIds(init);
      assert ids == init + [last];
    }
  }

  /** The root is the first package of its name. */
  lemma {:induction false} RootIsFirstNamed(packages: seq<Package>, name: string)
    ensures (forall p :: p in packages ==> p.name != Some(name)) ==> FirstNamed(packages, name) == None
    ensures forall k :: 0 <= k < |packages| && packages[k].name == Some(name)
                        && (forall j :: 0 <= j < k ==> packages[j].name != Some(name)) ==>
              FirstNamed(packages, name) == packages[k].id
  {
    if packages != [] {
      var rest := packages[1..];
      RootIsFirstNamed(rest, name);
      assert packages[0] in packages && forall p :: p in rest ==> p in packages;
      assert forall j :: 1 <= j < |packages| ==> packages[j] == rest[j - 1];
    }
  }

  lemma PackagesAreReadIffWhole(packages: seq<Package>)
    ensures ManifestDirs(packages).Ok? <==> forall p :: p in packages ==> IsWhole(p)
    ensures ManifestDirs(packages).Err? ==>
              ManifestDirs(packages).error in {PackageIdMissing, ManifestPathMissing, ManifestHasNoParent}
  {
    if ManifestDirs(packages).Ok? {
      forall p | p in packages ensures IsWhole(p) {
        var k :| 0 <= k < |packages| && packages[k] == p;
        ManifestDirOfLast(packages, k);
      }
    } else {
      var k := FirstBrokenPackage(packages);
      assert packages[k] in packages;
    }
  }

  lemma {:induction false} NamedIsFound(packages: seq<Package>, name: string)
    requires forall p :: p in packages ==> IsWhole(p)
    ensures FirstNamed(packages, name).Some? <==> exists p :: p in packages && p.name == Some(name)
  {
    if packages != [] {
      assert packages[0] in packages && forall p :: p in packages[1..] ==> p in packages;
      assert forall p :: p in packages ==> p == packages[0] || p in packages[1..];
      NamedIsFound(packages[1..], name);
    }
  }

  /** The metadata is read exactly when its packages are whole, one of them has the
      root's name, its nodes have ids and its members are strings; whatever fails
      first, in that order, is the error. */
  lemma FirstMissingIsTheError(m: Metadata, rootName: string)
    ensures var r := ReadInputs(m, rootName);
            var packages := m.packages.Some? && forall p :: p in m.packages.value ==> IsWhole(p);
            var root := packages && exists p :: p in m.packages.value && p.name == Some(rootName);
            var nodes := root && m.nodes.Some? && forall n :: n in m.nodes.value ==> n.id.Some?;
            var members := nodes && m.workspaceMembers.Some? && None !in m.workspaceMembers.value;
            && (r.Ok? <==> members)
            && (r.Ok? ==>
                  && ManifestDirs(m.packages.value) == Ok(r.value.dirs) && GraphOf(m.nodes.value) == Ok(r.value.graph)
                  && FirstNamed(m.packages.value, rootName) == Some(r.value.root)
                  && forall id :: id in r.value.members <==> Some(id) in m.workspaceMembers.value)
            && (m.packages.None? ==> r == Err(PackagesMissing))
            && (m.packages.Some? && !packages ==> r.Err? && ManifestDirs(m.packages.value) == Err(r.error))
            && (packages && !root ==> r == Err(NoSuchPackage(rootName)))
            && (root && !nodes ==> r == Err(if m.nodes.None? then NodesMissing else NodeIdMissing))
            && (nodes && !members ==>
                  r == Err(if m.workspaceMembers.None? then MembersMissing else MemberIsNotAString))
  {
    if m.packages.Some? {
      PackagesAreReadIffWhole(m.packages.value);
      if forall p :: p in m.packages.value ==> IsWhole(p) { NamedIsFound(m.packages.value, rootName); }
    }
    if m.nodes.Some? { GraphOfNodes(m.nodes.value); }
    if m.workspaceMembers.Some? { MembersOfIds(m.workspaceMembers.value); }
  }

  // -------------------------------------------------------------- the answer

  /** The ids among `ids` that are workspace members with this manifest directory. */
  function Tally(i: Inputs, ids: set<string>, dir: Path): set<string> {
    set id | id in ids && id in i.members && id in i.dirs && i.dirs[id] == dir
  }

  /** `dirs` lists the manifest directory of every id in `ids` that is a member, sorted. */
  ghost predicate IsDirList(i: Inputs, ids: set<string>, dirs: seq<Path>) {
    Sorted(PathLeq, dirs) && forall dir :: multiset(dirs)[dir] == |Tally(i, ids, dir)|
  }

  lemma TallyOfOneMore(i: Inputs, ids: set<string>, id: string, dir: Path)
    requires id !in ids
    ensures |Tally(i, ids + {id}, dir)|
         == |Tally(i, ids, dir)| + if id in i.members && id in i.dirs && i.dirs[id] == dir then 1 else 0
  {
    assert Tally(i, ids + {id}, dir) == Tally(i, ids, dir)
      + if id in i.members && id in i.dirs && i.dirs[id] == dir then {id} else {};
  }

  /** The filtered, mapped and sorted iteration over a hash set: any order at all. */
  method ListDirs(i: Inputs, visited: set<string>) returns (dirs: seq<Path>)
    ensures IsDirList(i, visited, dirs)
  {
    var rest, found := visited, [];
    ghost var taken: set<string> := {};
    while rest != {}
      invariant rest !! taken && rest + taken == visited
      invariant forall dir :: multiset(found)[dir] == |Tally(i, taken, dir)|
      decreases rest
    {
      var id :| id in rest;
      rest := rest - {id};
      forall dir: Path {:trigger Tally(i, taken + {id}, dir)} ensures |Tally(i, taken + {id}, dir)|
          == |Tally(i, taken, dir)| + if id in i.members && id in i.dirs && i.dirs[id] == dir then 1 else 0
      {
        TallyOfOneMore(i, taken, id, dir);
      }
      taken := taken + {id};
      if id in i.members && id in i.dirs {
        found := found + [i.dirs[id]];
      }
    }
    dirs := Sort(PathLeq, found);
    PathsAreOrdered();
    SortIsSorted(PathLeq, found);
    assert taken == visited;
  }

  ghost predicate IsReach(i: Inputs, ids: set<string>) {
    forall id :: id in ids <==> Reachable(i.graph, i.root, id)
  }

  /** The directory list, or an error when it would be empty. */
  ghost predicate IsAnswer(i: Inputs, reached: set<string>, rootName: string, result: Result<seq<Path>>) {
    if forall dir :: Tally(i, reached, dir) == {} then result == Err(NoWorkspaceDirs(rootName))
    else result.Ok? && IsDirList(i, reached, result.value)
  }

  method ResolveDependencyDirs(m: Metadata, rootName: string) returns (result: Result<seq<Path>>)
    ensures match ReadInputs(m, rootName)
            case Err(e) => result == Err(e)
            case Ok(i) =>
              exists reached :: IsReach(i, reached) && IsAnswer(i, reached, rootName, result)
  {
    var inputs := ReadInputs(m, rootName);
    if inputs.Err? { return Err(inputs.error); }
    var i := inputs.value;
    var visited := Reach(i.graph, i.root);
    var dirs := ListDirs(i, visited);
    if dirs == [] {
      forall dir ensures Tally(i, visited, dir) == {} {
        assert multiset(dirs)[dir] == |Tally(i, visited, dir)|;
        assert dir !in multiset(dirs);
      }
      assert IsReach(i, visited) && IsAnswer(i, visited, rootName, Err(NoWorkspaceDirs(rootName)));
      return Err(NoWorkspaceDirs(rootName));
    }
    assert dirs[0] in multiset(dirs);
    assert Tally(i, visited, dirs[0]) != {};
    assert IsReach(i, visited) && IsAnswer(i, visited, rootName, Ok(dirs));
    return Ok(dirs);
  }

  /** Hash-map iteration and pop order leave no trace: there is one such list. */
  lemma DirListIsUnique(i: Inputs, ids: set<string>, a: seq<Path>, b: seq<Path>)
    requires IsDirList(i, ids, a) && IsDirList(i, ids, b)
    ensures a == b
  {
    PathsAreOrdered();
    assert multiset(a) == multiset(b);
    SortedIsUnique(PathLeq, a, b);
  }

  /** So a graph has one answer, whatever the two runs did on the way. */
  lemma AnswersAgree(i: Inputs, reached: set<string>, again: set<string>, rootName: string,
                     a: Result<seq<Path>>, b: Result<seq<Path>>)
    requires IsReach(i, reached) && IsAnswer(i, reached, rootName, a)
    requires IsReach(i, again) && IsAnswer(i, again, rootName, b)
    ensures a == b
  {
    assert reached == again;
    if a.Ok? && b.Ok? { DirListIsUnique(i, reached, a.value, b.value); }
  }

  /** A root that is a workspace member with a manifest is itself listed, so an empty
      list, reported as an error, means the id formats have parted. */
  lemma RootIsListed(i: Inputs, reached: set<string>, dirs: seq<Path>)
    requires IsReach(i, reached) && IsDirList(i, reached, dirs) && i.root in i.members && i.root in i.dirs
    ensures i.dirs[i.root] in dirs
  {
    RootIsReachable(i.graph, i.root);
    assert i.root in Tally(i, reached, i.dirs[i.root]);
    assert i.dirs[i.root] in multiset(dirs);
  }
}
