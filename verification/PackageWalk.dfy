/** The package tree: a depth-first walk that instantiates every dependency path and
    refuses cycles. */
module PackageWalk {
  import opened Options

  /** A directory's real path. */
  type Dir = nat

  /** A manifest: the package's name and its dependencies in name order, each with the
      directory it resolves to, if any. */
  datatype Package = Package(name: string, deps: seq<Option<Dir>>)

  /** The directories with a readable manifest. */
  type Repo = map<Dir, Package>

  /** Which dependency is taken at each package on the way. */
  type Route = seq<nat>

  datatype WalkError = Cycle(names: seq<string>) | NoManifest(dir: Dir) | Unresolved(dir: Dir, dep: nat)

  // ---------------------------------------------------------------------
  // Dependency paths.
  // ---------------------------------------------------------------------

  ghost predicate DependsAt(repo: Repo, a: Dir, i: nat, b: Dir) {
    a in repo && i < |repo[a].deps| && repo[a].deps[i] == Some(b)
  }

  /** Following `route` from `dir` passes through exactly the directories `dirs`. */
  ghost predicate Visits(repo: Repo, dir: Dir, route: Route, dirs: seq<Dir>) {
    && |dirs| == |route| + 1 && dirs[0] == dir
    && forall k :: 0 <= k < |route| ==> DependsAt(repo, dirs[k], route[k], dirs[k + 1])
  }

  /** The last package on this path can be walked: it is not on the path already, it has
      a manifest, and all its dependencies resolve. */
  ghost predicate Fine(repo: Repo, path: seq<Dir>)
    requires path != []
  {
    var last := path[|path| - 1];
    last !in path[..|path| - 1] && last in repo && None !in repo[last].deps
  }

  /** Every dependency path from `dir`, entered along `stack`, is fine. */
  ghost predicate AllFine(repo: Repo, dir: Dir, stack: seq<Dir>) {
    forall route, dirs :: Visits(repo, dir, route, dirs) ==> Fine(repo, stack + dirs)
  }

  lemma VisitsCons(repo: Repo, dir: Dir, i: nat, child: Dir, route: Route, dirs: seq<Dir>)
    requires DependsAt(repo, dir, i, child) && Visits(repo, child, route, dirs)
    ensures Visits(repo, dir, [i] + route, [dir] + dirs)
  {
  }

  lemma VisitsTail(repo: Repo, dir: Dir, route: Route, dirs: seq<Dir>)
    requires Visits(repo, dir, route, dirs) && route != []
    ensures DependsAt(repo, dir, route[0], dirs[1]) && Visits(repo, dirs[1], route[1..], dirs[1..])
  {
  }

  lemma {:induction false} VisitsIsFunctional(repo: Repo, dir: Dir, route: Route, dirs: seq<Dir>, dirs': seq<Dir>)
    requires Visits(repo, dir, route, dirs) && Visits(repo, dir, route, dirs')
    ensures dirs == dirs'
    decreases |route|
  {
    if route != [] {
      VisitsTail(repo, dir, route, dirs);
      VisitsTail(repo, dir, route, dirs');
      VisitsIsFunctional(repo, dirs[1], route[1..], dirs[1..], dirs'[1..]);
      assert dirs == [dir] + dirs[1..] && dirs' == [dir] + dirs'[1..];
    } else {
      assert dirs == [dir] == dirs';
    }
  }

  /** If a package itself is fine and all its dependencies' paths are, so are all of its own. */
  lemma AllFineFromChildren(repo: Repo, dir: Dir, stack: seq<Dir>)
    requires Fine(repo, stack + [dir])
    requires forall i, child :: DependsAt(repo, dir, i, child) ==> AllFine(repo, child, stack + [dir])
    ensures AllFine(repo, dir, stack)
  {
    forall route, dirs | Visits(repo, dir, route, dirs)
      ensures Fine(repo, stack + dirs)
    {
      if route == [] {
        assert dirs == [dir];
      } else {
        VisitsTail(repo, dir, route, dirs);
        assert AllFine(repo, dirs[1], stack + [dir]);
        assert stack + dirs == stack + [dir] + dirs[1..];
      }
    }
  }

  /** A trouble met below a dependency is a trouble below the package. */
  ghost predicate TroubleBelow(repo: Repo, dir: Dir, stack: seq<Dir>, e: WalkError) {
    exists route, dirs :: Visits(repo, dir, route, dirs) && Explains(repo, stack + dirs, e)
  }

  /** The path ends in what the error says; a cycle error names the packages of a path
      from a directory back to itself. */
  ghost predicate Explains(repo: Repo, path: seq<Dir>, e: WalkError)
    requires path != []
  {
    var last := path[|path| - 1];
    match e
    case Cycle(names) =>
      exists i :: 0 <= i < |path| - 1 && path[i] == last && IsNames(repo, path[i..], names)
    case NoManifest(d) => d == last && d !in repo
    case Unresolved(d, dep) => d == last && d in repo && dep < |repo[d].deps| && repo[d].deps[dep] == None
  }

  ghost predicate IsNames(repo: Repo, path: seq<Dir>, names: seq<string>) {
    |names| == |path| && forall k :: 0 <= k < |path| ==> path[k] in repo && names[k] == repo[path[k]].name
  }

  lemma TroubleAbove(repo: Repo, dir: Dir, i: nat, child: Dir, stack: seq<Dir>, e: WalkError)
    requires DependsAt(repo, dir, i, child) && TroubleBelow(repo, child, stack + [dir], e)
    ensures TroubleBelow(repo, dir, stack, e)
  {
    var route, dirs :| Visits(repo, child, route, dirs) && Explains(repo, stack + [dir] + dirs, e);
    VisitsCons(repo, dir, i, child, route, dirs);
    assert stack + ([dir] + dirs) == stack + [dir] + dirs;
  }

  lemma TroubleHere(repo: Repo, dir: Dir, stack: seq<Dir>, e: WalkError)
    requires Explains(repo, stack + [dir], e)
    ensures TroubleBelow(repo, dir, stack, e)
  {
    assert Visits(repo, dir, [], [dir]);
  }

  lemma TroubleIsNotFine(repo: Repo, dir: Dir, stack: seq<Dir>, e: WalkError)
    requires TroubleBelow(repo, dir, stack, e)
    ensures !AllFine(repo, dir, stack)
  {
    var route, dirs :| Visits(repo, dir, route, dirs) && Explains(repo, stack + dirs, e);
    var path := stack + dirs;
    if e.Cycle? {
      var i :| 0 <= i < |path| - 1 && path[i] == path[|path| - 1] && IsNames(repo, path[i..], e.names);
      assert path[..|path| - 1][i] == path[i];
    }
  }

  // ---------------------------------------------------------------------
  // The tree of nodes.
  // ---------------------------------------------------------------------

  class PkgNode {
    const dir: Dir
    const name: string
    const depth: nat
    var deps: seq<PkgNode>
    var parent: PkgNode?

    constructor (dir: Dir, name: string, depth: nat)
      ensures this.dir == dir && this.name == name && this.depth == depth
      ensures deps == [] && parent == null
    {
      this.dir, this.name, this.depth := dir, name, depth;
      deps, parent := [], null;
    }
  }

  /** A node with what its mutable fields hold. */
  datatype Spot = Spot(node: PkgNode, deps: seq<PkgNode>, parent: PkgNode?)

  /** The node standing for each route. */
  type Tree = map<Route, Spot>

  ghost function Nodes(at: Tree): set<PkgNode> {
    set r | r in at :: at[r].node
  }

  /** The heap holds exactly what the tree says. */
  ghost predicate Shows(at: Tree)
    reads Nodes(at)
  {
    forall r :: r in at ==>
      at[r].node in Nodes(at) && at[r].node.deps == at[r].deps && at[r].node.parent == at[r].parent
  }

  ghost predicate OneToOne(at: Tree) {
    forall r, s :: r in at && s in at && at[r].node == at[s].node ==> r == s
  }

  ghost predicate LeadsTo(repo: Repo, dir: Dir, r: Route, end: Dir) {
    exists dirs :: Visits(repo, dir, r, dirs) && dirs[|r|] == end
  }

  /** The node at route `r` shows its package and its depth. */
  ghost predicate Describes(repo: Repo, dir: Dir, depth: nat, r: Route, node: PkgNode) {
    LeadsTo(repo, dir, r, node.dir) && node.dir in repo && node.name == repo[node.dir].name && node.depth == depth + |r|
  }

  ghost predicate HangsFrom(at: Tree, r: Route, parent: PkgNode?) {
    r != [] ==> r[..|r| - 1] in at && parent == at[r[..|r| - 1]].node
  }

  ghost predicate Carries(at: Tree, r: Route, deps: seq<PkgNode>) {
    forall i :: 0 <= i < |deps| ==> r + [i] in at && deps[i] == at[r + [i]].node
  }

  ghost predicate NodeAt(repo: Repo, dir: Dir, depth: nat, at: Tree, r: Route) {
    && r in at && Describes(repo, dir, depth, r, at[r].node)
    && HangsFrom(at, r, at[r].parent) && Carries(at, r, at[r].deps)
    && |at[r].deps| == |repo[at[r].node.dir].deps|
  }

  ghost predicate Covers(repo: Repo, dir: Dir, at: Tree, k: nat) {
    forall r, dirs :: Visits(repo, dir, r, dirs) && (r != [] ==> r[0] < k) ==> r in at
  }

  /** The tree has one node for every dependency path from `dir`, and no others. */
  ghost predicate Built(repo: Repo, dir: Dir, depth: nat, at: Tree) {
    && OneToOne(at)
    && (forall r :: r in at ==> NodeAt(repo, dir, depth, at, r))
    && (forall r, dirs :: Visits(repo, dir, r, dirs) ==> r in at)
  }

  /** The tree while the root's first `k` dependencies have been attached. */
  ghost predicate Growing(repo: Repo, dir: Dir, depth: nat, at: Tree, k: nat) {
    && OneToOne(at) && [] in at && dir in repo && k <= |repo[dir].deps|
    && Describes(repo, dir, depth, [], at[[]].node) && at[[]].node.dir == dir
    && |at[[]].deps| == k && Carries(at, [], at[[]].deps)
    && (forall r :: r in at && r != [] ==> r[0] < k && NodeAt(repo, dir, depth, at, r))
    && Covers(repo, dir, at, k)
  }

  ghost predicate BelowDep(k: nat, sub: Tree, r: Route) {
    r != [] && r[0] == k && r[1..] in sub
  }

  /** The tree with `sub` attached as the root's dependency number `k`: its root learns its
      parent, the parent gains a dependency, and every other node is left alone. */
  ghost function Graft(at: Tree, k: nat, sub: Tree): (g: Tree)
    requires [] in at && [] in sub
    ensures forall r :: r in g <==> r in at || BelowDep(k, sub, r)
    ensures forall r :: r in g ==> g[r] == Grafted(at, k, sub, r)
  {
    var routes := set s | s in sub :: [k] + s;
    forall r
      ensures r in routes <==> BelowDep(k, sub, r)
    {
      if BelowDep(k, sub, r) {
        assert r == [k] + r[1..];
      }
    }
    map r | r in at.Keys + routes :: Grafted(at, k, sub, r)
  }

  ghost function Grafted(at: Tree, k: nat, sub: Tree, r: Route): Spot
    requires [] in at && [] in sub && (r in at || BelowDep(k, sub, r))
  {
    if r == [] then
      at[[]].(deps := at[[]].deps + [sub[[]].node])
    else if BelowDep(k, sub, r) then
      if |r| == 1 then sub[[]].(parent := at[[]].node) else sub[r[1..]]
    else
      at[r]
  }

  lemma GraftKeepsOld(repo: Repo, dir: Dir, depth: nat, at: Tree, k: nat, sub: Tree, r: Route)
    requires Growing(repo, dir, depth, at, k) && [] in sub && r in at && r != []
    ensures NodeAt(repo, dir, depth, Graft(at, k, sub), r)
  {
    hide Describes, Covers, OneToOne;
    var g := Graft(at, k, sub);
    var up: Route := r[..|r| - 1];
    assert NodeAt(repo, dir, depth, at, r);
    assert !BelowDep(k, sub, r) && !BelowDep(k, sub, up);
    assert g[up].node == at[up].node;
    forall i | 0 <= i < |at[r].deps|
      ensures r + [i] in g && at[r].deps[i] == g[r + [i]].node
    {
      assert r + [i] in at && (r + [i])[0] == r[0];
    }
  }

  lemma DescribesBelow(repo: Repo, dir: Dir, depth: nat, k: nat, child: Dir, s: Route, node: PkgNode)
    requires DependsAt(repo, dir, k, child) && Describes(repo, child, depth + 1, s, node)
    ensures Describes(repo, dir, depth, [k] + s, node)
  {
    var dirs :| Visits(repo, child, s, dirs) && dirs[|s|] == node.dir;
    VisitsCons(repo, dir, k, child, s, dirs);
    assert ([dir] + dirs)[|[k] + s|] == node.dir;
  }

  lemma GraftPlacesSub(repo: Repo, dir: Dir, depth: nat, at: Tree, k: nat, child: Dir, sub: Tree, s: Route)
    requires [] in at && [] in sub && DependsAt(repo, dir, k, child)
    requires NodeAt(repo, child, depth + 1, sub, s)
    ensures NodeAt(repo, dir, depth, Graft(at, k, sub), [k] + s)
  {
    hide DependsAt;
    DescribesBelow(repo, dir, depth, k, child, s, sub[s].node);
    var g := Graft(at, k, sub);
    var r: Route := [k] + s;
    var up: Route := r[..|r| - 1];
    assert r[1..] == s && BelowDep(k, sub, r) && g[r].node == sub[s].node && g[r].deps == sub[s].deps;
    assert HangsFrom(g, r, g[r].parent) by {
      hide Describes, Carries;
      if s == [] {
        assert up == [];
      } else {
        assert up[1..] == s[..|s| - 1] && BelowDep(k, sub, up);
      }
    }
    forall i | 0 <= i < |sub[s].deps|
      ensures r + [i] in g && sub[s].deps[i] == g[r + [i]].node
    {
      hide Describes, HangsFrom;
      assert (r + [i])[1..] == s + [i] && BelowDep(k, sub, r + [i]);
    }
  }

  lemma GraftAtRoot(at: Tree, k: nat, sub: Tree)
    requires [] in at && [] in sub && |at[[]].deps| == k && Carries(at, [], at[[]].deps)
    ensures Carries(Graft(at, k, sub), [], Graft(at, k, sub)[[]].deps)
  {
    var g := Graft(at, k, sub);
    forall i | 0 <= i < k + 1
      ensures [] + [i] in g && g[[]].deps[i] == g[[] + [i]].node
    {
      var one: Route := [i];
      assert one == [] + [i] && one[1..] == [];
      if i == k {
        assert BelowDep(k, sub, one);
      } else {
        assert one in at && !BelowDep(k, sub, one);
      }
    }
  }

  lemma GraftIsOneToOne(at: Tree, k: nat, sub: Tree)
    requires [] in at && [] in sub && OneToOne(at) && OneToOne(sub) && Nodes(at) !! Nodes(sub)
    requires forall r :: r in at && r != [] ==> r[0] < k
    ensures OneToOne(Graft(at, k, sub))
  {
    var g := Graft(at, k, sub);
    forall r, s | r in g && s in g && g[r].node == g[s].node
      ensures r == s
    {
      assert BelowDep(k, sub, r) ==> g[r].node in Nodes(sub);
      assert BelowDep(k, sub, s) ==> g[s].node in Nodes(sub);
      assert !BelowDep(k, sub, r) ==> g[r].node in Nodes(at);
      assert !BelowDep(k, sub, s) ==> g[s].node in Nodes(at);
      if BelowDep(k, sub, r) {
        assert r[1..] == s[1..] && r == [k] + r[1..] && s == [k] + s[1..];
      }
    }
  }

  lemma GraftCovers(repo: Repo, dir: Dir, at: Tree, k: nat, child: Dir, sub: Tree)
    requires [] in at && [] in sub && DependsAt(repo, dir, k, child) && Covers(repo, dir, at, k)
    requires forall r, dirs :: Visits(repo, child, r, dirs) ==> r in sub
    ensures Covers(repo, dir, Graft(at, k, sub), k + 1)
  {
    forall r, dirs | Visits(repo, dir, r, dirs) && (r != [] ==> r[0] < k + 1)
      ensures r in Graft(at, k, sub)
    {
      if r != [] && r[0] == k {
        VisitsTail(repo, dir, r, dirs);
        assert BelowDep(k, sub, r);
      }
    }
  }

  /** Attaching a finished subtree for the next dependency. */
  lemma GraftGrows(repo: Repo, dir: Dir, depth: nat, at: Tree, k: nat, child: Dir, sub: Tree)
    requires Growing(repo, dir, depth, at, k) && Built(repo, child, depth + 1, sub) && [] in sub
    requires DependsAt(repo, dir, k, child) && Nodes(at) !! Nodes(sub)
    ensures Growing(repo, dir, depth, Graft(at, k, sub), k + 1)
  {
    GraftAtRoot(at, k, sub);
    GraftIsOneToOne(at, k, sub);
    GraftCovers(repo, dir, at, k, child, sub);
    assert k + 1 <= |repo[dir].deps|;
    hide DependsAt, NodeAt, Covers, OneToOne, Carries, Describes;
    var g := Graft(at, k, sub);
    forall r | r in g && r != []
      ensures r[0] < k + 1 && NodeAt(repo, dir, depth, g, r)
    {
      if BelowDep(k, sub, r) {
        GraftPlacesSub(repo, dir, depth, at, k, child, sub, r[1..]);
        assert r == [k] + r[1..];
      } else {
        GraftKeepsOld(repo, dir, depth, at, k, sub, r);
      }
    }
  }

  lemma GraftNodes(at: Tree, k: nat, sub: Tree)
    requires [] in at && [] in sub
    ensures Nodes(Graft(at, k, sub)) <= Nodes(at) + Nodes(sub)
  {
  }

  // ---------------------------------------------------------------------
  // The walk.
  // ---------------------------------------------------------------------

  datatype Walked = Tree(root: PkgNode) | Refused(error: WalkError)

  ghost predicate IsStack(repo: Repo, stack: seq<Dir>) {
    && (forall i :: 0 <= i < |stack| ==> stack[i] in repo)
    && (forall i, j :: 0 <= i < j < |stack| ==> stack[i] != stack[j])
  }

  ghost function Left(repo: Repo, stack: seq<Dir>): set<Dir> {
    repo.Keys - set d | d in stack
  }

  function NamesOf(repo: Repo, path: seq<Dir>): seq<string>
    requires forall i :: 0 <= i < |path| ==> path[i] in repo
  {
    seq(|path|, i requires 0 <= i < |path| => repo[path[i]].name)
  }

  lemma CycleExplained(repo: Repo, stack: seq<Dir>, i: nat)
    requires IsStack(repo, stack) && i < |stack|
    ensures forall k :: 0 <= k < |stack| ==> stack[k] in repo
    ensures TroubleBelow(repo, stack[i], stack, Cycle(NamesOf(repo, stack[i..]) + [repo[stack[i]].name]))
  {
    var dir := stack[i];
    var path := stack + [dir];
    assert path[i..] == stack[i..] + [dir];
    assert IsNames(repo, path[i..], NamesOf(repo, stack[i..]) + [repo[dir].name]);
    TroubleHere(repo, dir, stack, Cycle(NamesOf(repo, stack[i..]) + [repo[dir].name]));
  }

  lemma StackGrows(repo: Repo, stack: seq<Dir>, dir: Dir)
    requires IsStack(repo, stack) && dir in repo && dir !in stack
    ensures IsStack(repo, stack + [dir]) && Left(repo, stack + [dir]) < Left(repo, stack)
  {
    var longer := stack + [dir];
    assert dir in Left(repo, stack) && dir in longer;
    assert dir !in Left(repo, longer);
    assert forall d :: d in longer <==> d in stack || d == dir;
  }

  lemma WalkedHere(repo: Repo, dir: Dir, stack: seq<Dir>, at: Tree)
    requires dir in repo && dir !in stack && NoneMissing(repo[dir].deps, |repo[dir].deps|)
    requires DepsFine(repo, dir, stack + [dir], |repo[dir].deps|)
    requires Growing(repo, dir, |stack|, at, |repo[dir].deps|)
    ensures AllFine(repo, dir, stack) && Built(repo, dir, |stack|, at)
  {
    assert (stack + [dir])[..|stack|] == stack && repo[dir].deps[..|repo[dir].deps|] == repo[dir].deps;
    AllFineFromChildren(repo, dir, stack);
    assert Visits(repo, dir, [], [dir]);
    forall r, dirs | Visits(repo, dir, r, dirs)
      ensures r in at
    {
      if r != [] {
        VisitsTail(repo, dir, r, dirs);
      }
    }
    forall r: Route | r in at
      ensures NodeAt(repo, dir, |stack|, at, r)
    {
    }
  }

  ghost function Leaf(node: PkgNode): Tree {
    map[[] := Spot(node, [], null)]
  }

  lemma RootAlone(repo: Repo, dir: Dir, depth: nat, node: PkgNode)
    requires dir in repo && node.dir == dir && node.name == repo[dir].name && node.depth == depth
    ensures Growing(repo, dir, depth, Leaf(node), 0)
    ensures Nodes(Leaf(node)) == {node} && [] in Leaf(node) && Leaf(node)[[]] == Spot(node, [], null)
    ensures node.deps == [] && node.parent == null ==> Shows(Leaf(node))
  {
    assert Visits(repo, dir, [], [dir]);
    assert Leaf(node)[[]].node == node;
  }

  method Attach(node: PkgNode, child: PkgNode, ghost at: Tree, ghost k: nat, ghost sub: Tree)
    requires [] in at && at[[]].node == node && Shows(at) && OneToOne(at)
    requires [] in sub && sub[[]].node == child && Shows(sub) && OneToOne(sub)
    requires Nodes(at) !! Nodes(sub)
    modifies node`deps, child`parent
    ensures Shows(Graft(at, k, sub))
    ensures Nodes(Graft(at, k, sub)) <= Nodes(at) + Nodes(sub)
  {
    assert node in Nodes(at) && child in Nodes(sub);
    child.parent := node;
    node.deps := node.deps + [child];
    ghost var g := Graft(at, k, sub);
    GraftNodes(at, k, sub);
    forall r: Route | r in g
      ensures g[r].node.deps == g[r].deps && g[r].node.parent == g[r].parent
    {
      if BelowDep(k, sub, r) {
        assert sub[r[1..]].node in Nodes(sub);
        assert r[1..] == [] <==> |r| == 1;
      } else {
        assert at[r].node in Nodes(at);
      }
    }
  }

  predicate NoneMissing(deps: seq<Option<Dir>>, k: nat)
    requires k <= |deps|
  {
    None !in deps[..k]
  }

  ghost predicate DepsFine(repo: Repo, dir: Dir, stack: seq<Dir>, k: nat) {
    forall j: nat, child :: j < k && DependsAt(repo, dir, j, child) ==> AllFine(repo, child, stack)
  }

  lemma NoDepsYet(repo: Repo, dir: Dir, stack: seq<Dir>)
    requires dir in repo
    ensures NoneMissing(repo[dir].deps, 0) && DepsFine(repo, dir, stack, 0)
  {
  }

  lemma NextDep(repo: Repo, dir: Dir, i: nat)
    requires dir in repo && i < |repo[dir].deps| && repo[dir].deps[i] != None && NoneMissing(repo[dir].deps, i)
    ensures NoneMissing(repo[dir].deps, i + 1) && DependsAt(repo, dir, i, repo[dir].deps[i].value)
  {
    var deps := repo[dir].deps;
    assert deps[..i + 1] == deps[..i] + [deps[i]];
  }

  lemma DepFine(repo: Repo, dir: Dir, stack: seq<Dir>, k: nat, child: Dir)
    requires DependsAt(repo, dir, k, child) && AllFine(repo, child, stack) && DepsFine(repo, dir, stack, k)
    ensures DepsFine(repo, dir, stack, k + 1)
  {
    forall j: nat, c | j < k + 1 && DependsAt(repo, dir, j, c)
      ensures AllFine(repo, c, stack)
    {
    }
  }

  method FindOnStack(stack: seq<Dir>, dir: Dir) returns (i: nat)
    ensures i <= |stack| && (i < |stack| ==> stack[i] == dir)
    ensures i == |stack| ==> dir !in stack
  {
    for k := 0 to |stack|
      invariant dir !in stack[..k]
    {
      if stack[k] == dir {
        return k;
      }
    }
    return |stack|;
  }

  /** Walks the packages below `dir`, reached along `stack`: either a tree with one node
      for every dependency path, or a trouble that some path really runs into. */
  method WalkPackages(repo: Repo, dir: Dir, stack: seq<Dir>) returns (r: Walked, ghost at: Tree)
    requires IsStack(repo, stack)
    ensures r.Refused? ==> TroubleBelow(repo, dir, stack, r.error)
    ensures r.Tree? ==> AllFine(repo, dir, stack)
    ensures r.Tree? ==> Built(repo, dir, |stack|, at) && [] in at && at[[]].node == r.root
    ensures r.Tree? ==> fresh(Nodes(at)) && Shows(at) && at[[]].parent == null
    decreases Left(repo, stack)
  {
    hide *;
    at := map[];
    var i := FindOnStack(stack, dir);
    if i < |stack| {
      CycleExplained(repo, stack, i);
      return Refused(Cycle(NamesOf(repo, stack[i..]) + [repo[dir].name])), at;
    }
    if dir !in repo {
      TroubleHere(repo, dir, stack, NoManifest(dir));
      return Refused(NoManifest(dir)), at;
    }
    StackGrows(repo, stack, dir);
    var deps := repo[dir].deps;
    var node := new PkgNode(dir, repo[dir].name, |stack|);
    at := Leaf(node);
    RootAlone(repo, dir, |stack|, node);
    NoDepsYet(repo, dir, stack + [dir]);
    for i := 0 to |deps|
      invariant Growing(repo, dir, |stack|, at, i) && [] in at && at[[]].node == node
      invariant fresh(Nodes(at)) && Shows(at) && at[[]].parent == null
      invariant NoneMissing(deps, i) && DepsFine(repo, dir, stack + [dir], i)
    {
      if deps[i] == None {
        TroubleHere(repo, dir, stack, Unresolved(dir, i));
        return Refused(Unresolved(dir, i)), at;
      }
      var child := deps[i].value;
      NextDep(repo, dir, i);
      ghost var ours := Nodes(at);
      NodesAreAllocated(at);
      var sub;
      ghost var subAt;
      sub, subAt := WalkPackages(repo, child, stack + [dir]);
      if sub.Refused? {
        TroubleAbove(repo, dir, i, child, stack, sub.error);
        return sub, at;
      }
      DepFine(repo, dir, stack + [dir], i, child);
      assert Nodes(at) == ours && ours !! Nodes(subAt);
      GraftGrows(repo, dir, |stack|, at, i, child, subAt);
      GrowsMeans(repo, dir, |stack|, at, i, child, subAt);
      Attach(node, sub.root, at, i, subAt);
      at := Graft(at, i, subAt);
    }
    WalkedHere(repo, dir, stack, at);
    return Tree(node), at;
  }

  lemma NodesAreAllocated(at: Tree)
    ensures forall o :: o in Nodes(at) ==> allocated(o)
  {
  }

  lemma GrowsMeans(repo: Repo, dir: Dir, depth: nat, at: Tree, k: nat, child: Dir, sub: Tree)
    requires Growing(repo, dir, depth, at, k) && Built(repo, child, depth + 1, sub) && [] in sub
    ensures OneToOne(at) && OneToOne(sub) && sub[[]].node in Nodes(sub)
    ensures [] in Graft(at, k, sub) && Graft(at, k, sub)[[]].node == at[[]].node
    ensures Graft(at, k, sub)[[]].parent == at[[]].parent
  {
  }
}
