/** What a finished package walk gives its readers: when it succeeds, the chain printed
    for a package, and the flat list of all packages. */
module PackageTree {
  import opened Sequences
  import opened Options
  import opened PackageWalk

  // ---------------------------------------------------------------------
  // When the walk succeeds.
  // ---------------------------------------------------------------------

  ghost predicate Reachable(repo: Repo, root: Dir, dir: Dir) {
    exists route :: LeadsTo(repo, root, route, dir)
  }

  ghost predicate OnCycle(repo: Repo, dir: Dir) {
    exists route :: route != [] && LeadsTo(repo, dir, route, dir)
  }

  ghost predicate Sound(repo: Repo, dir: Dir) {
    dir in repo && None !in repo[dir].deps
  }

  /** Every package below the root is readable and none depends on itself, however indirectly. */
  ghost predicate Healthy(repo: Repo, root: Dir) {
    forall dir :: Reachable(repo, root, dir) ==> Sound(repo, dir) && !OnCycle(repo, dir)
  }

  lemma PathsJoin(repo: Repo, root: Dir, r: Route, dirs: seq<Dir>, s: Route, more: seq<Dir>)
    requires Visits(repo, root, r, dirs) && Visits(repo, dirs[|r|], s, more)
    ensures Visits(repo, root, r + s, dirs + more[1..])
  {
    var all := dirs + more[1..];
    forall k | 0 <= k < |r + s|
      ensures DependsAt(repo, all[k], (r + s)[k], all[k + 1])
    {
      if k >= |r| {
        assert all[k] == more[k - |r|] && all[k + 1] == more[k + 1 - |r|];
      }
    }
  }

  lemma CycleIsNotFine(repo: Repo, root: Dir, dir: Dir)
    requires Reachable(repo, root, dir) && OnCycle(repo, dir)
    ensures !AllFine(repo, root, [])
  {
    var r, dirs :| Visits(repo, root, r, dirs) && dirs[|r|] == dir;
    var s, more :| s != [] && Visits(repo, dir, s, more) && more[|s|] == dir;
    PathsJoin(repo, root, r, dirs, s, more);
    var all := dirs + more[1..];
    assert all[..|all| - 1][|r|] == dir == all[|all| - 1];
    assert [] + all == all && !Fine(repo, all);
  }

  lemma RepeatIsOnCycle(repo: Repo, root: Dir, r: Route, dirs: seq<Dir>)
    requires Visits(repo, root, r, dirs) && dirs[|r|] in dirs[..|r|]
    ensures OnCycle(repo, dirs[|r|])
  {
    var i :| 0 <= i < |r| && dirs[i] == dirs[|r|];
    var s, more: seq<Dir> := r[i..], dirs[i..];
    assert Visits(repo, dirs[i], s, more) && more[|s|] == dirs[|r|] && s != [];
    assert LeadsTo(repo, dirs[i], s, dirs[|r|]);
  }

  lemma FineMeansHealthy(repo: Repo, root: Dir)
    requires AllFine(repo, root, [])
    ensures Healthy(repo, root)
  {
    forall dir | Reachable(repo, root, dir)
      ensures Sound(repo, dir) && !OnCycle(repo, dir)
    {
      var r, dirs :| Visits(repo, root, r, dirs) && dirs[|r|] == dir;
      assert [] + dirs == dirs && Fine(repo, dirs);
      if OnCycle(repo, dir) {
        CycleIsNotFine(repo, root, dir);
      }
    }
  }

  lemma HealthyMeansFine(repo: Repo, root: Dir)
    requires Healthy(repo, root)
    ensures AllFine(repo, root, [])
  {
    forall r, dirs | Visits(repo, root, r, dirs)
      ensures Fine(repo, [] + dirs)
    {
      assert [] + dirs == dirs;
      assert LeadsTo(repo, root, r, dirs[|r|]) && Reachable(repo, root, dirs[|r|]);
      if dirs[|r|] in dirs[..|r|] {
        RepeatIsOnCycle(repo, root, r, dirs);
      }
    }
  }

  lemma HealthyIfFine(repo: Repo, root: Dir)
    ensures Healthy(repo, root) <==> AllFine(repo, root, [])
  {
    if Healthy(repo, root) {
      HealthyMeansFine(repo, root);
    }
    if AllFine(repo, root, []) {
      FineMeansHealthy(repo, root);
    }
  }

  /** From the root, the walk gives a tree exactly when nothing reachable is broken or lies
      on a cycle; a refusal names a real trouble. */
  method WalkRoot(repo: Repo, root: Dir) returns (r: Walked, ghost at: Tree)
    ensures r.Tree? <==> Healthy(repo, root)
    ensures r.Refused? ==> TroubleBelow(repo, root, [], r.error)
    ensures r.Tree? ==> Built(repo, root, 0, at) && Shows(at)
    ensures r.Tree? ==> [] in at && at[[]].node == r.root && r.root.parent == null
    ensures r.Tree? ==> fresh(Nodes(at))
  {
    r, at := WalkPackages(repo, root, []);
    HealthyIfFine(repo, root);
    if r.Refused? {
      TroubleIsNotFine(repo, root, [], r.error);
    }
  }

  // ---------------------------------------------------------------------
  // The chain of names to a package.
  // ---------------------------------------------------------------------

  lemma SpotAt(repo: Repo, root: Dir, at: Tree, r: Route, dirs: seq<Dir>)
    requires Built(repo, root, 0, at) && Visits(repo, root, r, dirs)
    ensures r in at && at[r].node.dir == dirs[|r|] && dirs[|r|] in repo && at[r].node.name == repo[dirs[|r|]].name
    ensures r != [] ==> r[..|r| - 1] in at && at[r].parent == at[r[..|r| - 1]].node
  {
    assert r in at && NodeAt(repo, root, 0, at, r);
    hide Built, Visits;
    var short :| Visits(repo, root, r, short) && short[|r|] == at[r].node.dir;
    VisitsIsFunctional(repo, root, r, short, dirs);
  }

  lemma PrefixVisits(repo: Repo, root: Dir, r: Route, dirs: seq<Dir>, k: nat)
    requires Visits(repo, root, r, dirs) && k <= |r|
    ensures |dirs| == |r| + 1 && Visits(repo, root, r[..k], dirs[..k + 1])
  {
  }

  lemma AlongTheWay(repo: Repo, root: Dir, at: Tree, r: Route, dirs: seq<Dir>, k: nat)
    requires Built(repo, root, 0, at) && Visits(repo, root, r, dirs) && k <= |r|
    ensures r[..k] in at && at[r[..k]].node.dir == dirs[k] && dirs[k] in repo
    ensures at[r[..k]].node.name == repo[dirs[k]].name
    ensures k > 0 ==> r[..k - 1] in at && at[r[..k]].parent == at[r[..k - 1]].node
  {
    PrefixVisits(repo, root, r, dirs, k);
    hide Visits, Built;
    SpotAt(repo, root, at, r[..k], dirs[..k + 1]);
    assert k > 0 ==> r[..k][..k - 1] == r[..k - 1];
  }

  lemma SpotShown(at: Tree, r: Route)
    requires Shows(at) && r in at
    ensures at[r].node in Nodes(at) && at[r].node.parent == at[r].parent && at[r].node.deps == at[r].deps
  {
  }

  lemma PathTo(repo: Repo, root: Dir, at: Tree, r: Route) returns (dirs: seq<Dir>)
    requires Built(repo, root, 0, at) && r in at
    ensures Visits(repo, root, r, dirs) && |dirs| == |r| + 1
    ensures at[r].node.dir == dirs[|r|] && at[r].node.depth == |r| && r[..|r|] == r
  {
    assert NodeAt(repo, root, 0, at, r);
    dirs :| Visits(repo, root, r, dirs) && dirs[|r|] == at[r].node.dir;
  }

  ghost predicate Names(repo: Repo, dirs: seq<Dir>, i: nat, name: string)
    requires i < |dirs|
  {
    dirs[i] in repo && name == repo[dirs[i]].name
  }

  /** The names from the path's end up to its first `k` packages. */
  ghost predicate NamedUp(repo: Repo, dirs: seq<Dir>, names: seq<string>)
    requires |names| <= |dirs|
  {
    forall j :: 0 <= j < |names| ==> Names(repo, dirs, |dirs| - 1 - j, names[j])
  }

  lemma NamedOneMore(repo: Repo, dirs: seq<Dir>, names: seq<string>, name: string)
    requires |names| < |dirs| && NamedUp(repo, dirs, names)
    requires Names(repo, dirs, |dirs| - 1 - |names|, name)
    ensures NamedUp(repo, dirs, names + [name])
  {
    var longer := names + [name];
    forall j | 0 <= j < |longer|
      ensures Names(repo, dirs, |dirs| - 1 - j, longer[j])
    {
      if j < |names| {
        assert longer[j] == names[j];
      }
    }
  }

  lemma ClimbOne(repo: Repo, root: Dir, at: Tree, r: Route, dirs: seq<Dir>, names: seq<string>)
    requires Built(repo, root, 0, at) && Shows(at) && [] in at && at[[]].parent == null
    requires Visits(repo, root, r, dirs) && |names| <= |r| && |dirs| == |r| + 1
    requires NamedUp(repo, dirs, names)
    ensures var k := |r| - |names|;
      && r[..k] in at && NamedUp(repo, dirs, names + [at[r[..k]].node.name])
      && (if k == 0 then at[r[..k]].node.parent == null
          else r[..k - 1] in at && at[r[..k]].node.parent == at[r[..k - 1]].node)
  {
    var k := |r| - |names|;
    hide Built, Visits, Shows;
    AlongTheWay(repo, root, at, r, dirs, k);
    SpotShown(at, r[..k]);
    NamedOneMore(repo, dirs, names, at[r[..k]].node.name);
    assert k == 0 ==> r[..k] == [];
  }

  /** Climbing the parents names the packages of the dependency path to the node, root first;
      the depth is the number of dependencies taken. */
  method ChainNames(node: PkgNode, ghost repo: Repo, ghost root: Dir, ghost at: Tree, ghost r: Route)
    returns (chain: seq<string>)
    requires Built(repo, root, 0, at) && Shows(at) && [] in at && at[[]].parent == null
    requires r in at && at[r].node == node
    ensures exists dirs ::
      Visits(repo, root, r, dirs) && |dirs| == |r| + 1 && dirs[|r|] == node.dir && IsNames(repo, dirs, chain)
    ensures |chain| == node.depth + 1
  {
    hide *;
    ghost var dirs := PathTo(repo, root, at, r);
    chain := [];
    var cur: PkgNode? := node;
    NamedNone(repo, dirs);
    while cur != null
      invariant Shows(at)
      invariant |chain| <= |dirs| && NamedUp(repo, dirs, chain)
      invariant |chain| == |dirs| <==> cur == null
      invariant |chain| <= |r| ==> r[..|r| - |chain|] in at && cur == at[r[..|r| - |chain|]].node
      decreases |dirs| - |chain|
    {
      ClimbOne(repo, root, at, r, dirs, chain);
      chain := chain + [cur.name];
      cur := cur.parent;
    }
    NamedAll(repo, dirs, chain);
    chain := Reverse(chain);
  }

  lemma NamedNone(repo: Repo, dirs: seq<Dir>)
    ensures NamedUp(repo, dirs, [])
  {
  }

  lemma NamedAll(repo: Repo, dirs: seq<Dir>, names: seq<string>)
    requires |names| == |dirs| && NamedUp(repo, dirs, names)
    ensures IsNames(repo, dirs, Reverse(names)) && |Reverse(names)| == |names|
  {
    if names != [] {
      ReverseAt(names, 0);
    }
    forall k | 0 <= k < |dirs|
      ensures dirs[k] in repo && Reverse(names)[k] == repo[dirs[k]].name
    {
      var j := |dirs| - 1 - k;
      ReverseAt(names, k);
      assert Reverse(names)[k] == names[j] && Names(repo, dirs, |dirs| - 1 - j, names[j]);
    }
  }

  // ---------------------------------------------------------------------
  // The flat list of packages.
  // ---------------------------------------------------------------------

  ghost predicate Extends(s: Route, r: Route) {
    |r| <= |s| && s[..|r|] == r
  }

  /** `a` comes before `b`: either `b` lies below `a`, or `a` takes an earlier dependency where they part. */
  ghost predicate Before(a: Route, b: Route) {
    exists k :: 0 <= k <= |a| && k < |b| && a[..k] == b[..k] && (k < |a| ==> a[k] < b[k])
  }

  ghost function Under(at: Tree, r: Route): set<Route> {
    set s | s in at && Extends(s, r)
  }

  ghost predicate InOrder(routes: seq<Route>) {
    forall i, j :: 0 <= i < j < |routes| ==> Before(routes[i], routes[j])
  }

  /** The routes below `r` in order, taking dependencies below number `k` only. */
  ghost predicate Lists(at: Tree, r: Route, k: nat, routes: seq<Route>) {
    && InOrder(routes)
    && (forall s :: s in routes <==> s in at && Extends(s, r) && (|s| > |r| ==> s[|r|] < k))
  }

  /** All routes below `r`, in order. */
  ghost predicate ListsAll(at: Tree, r: Route, routes: seq<Route>) {
    InOrder(routes) && forall s :: s in routes <==> s in Under(at, r)
  }

  ghost predicate AreNodes(at: Tree, routes: seq<Route>, out: seq<PkgNode>) {
    |out| == |routes| && forall i :: 0 <= i < |out| ==> routes[i] in at && out[i] == at[routes[i]].node
  }

  lemma InOrderMore(r: Route, k: nat, routes: seq<Route>, more: seq<Route>)
    requires InOrder(routes) && InOrder(more)
    requires forall s :: s in routes ==> Extends(s, r) && (|s| > |r| ==> s[|r|] < k)
    requires forall s :: s in more ==> Extends(s, r + [k])
    ensures InOrder(routes + more)
  {
    hide Before, Extends;
    var both := routes + more;
    forall i, j | 0 <= i < j < |both|
      ensures Before(both[i], both[j])
    {
      if i < |routes| && j >= |routes| {
        assert both[i] in routes && both[j] in more;
        PartAt(both[i], both[j], r, k);
      } else if i >= |routes| {
        assert both[i] == more[i - |routes|] && both[j] == more[j - |routes|];
      }
    }
  }

  lemma ListsMore(at: Tree, r: Route, k: nat, routes: seq<Route>, more: seq<Route>)
    requires Lists(at, r, k, routes) && ListsAll(at, r + [k], more)
    ensures Lists(at, r, k + 1, routes + more)
  {
    InOrderMore(r, k, routes, more);
    hide InOrder;
    forall s | s in at
      ensures Extends(s, r + [k]) <==> Extends(s, r) && |s| > |r| && s[|r|] == k
    {
      if |s| > |r| {
        assert s[..|r| + 1] == s[..|r|] + [s[|r|]];
      }
    }
  }

  lemma PartAt(a: Route, b: Route, r: Route, k: nat)
    requires Extends(a, r) && (|a| > |r| ==> a[|r|] < k) && Extends(b, r + [k])
    ensures Before(a, b)
  {
    assert b[..|r|] == (r + [k])[..|r|] == a[..|r|];
    assert b[|r|] == (r + [k])[|r|];
  }

  lemma UnderShrinks(at: Tree, r: Route, k: nat)
    requires r in at
    ensures Under(at, r + [k]) < Under(at, r)
  {
    forall s | s in Under(at, r + [k])
      ensures s in Under(at, r)
    {
      assert s[..|r|] == (r + [k])[..|r|];
    }
    assert r in Under(at, r) && r !in Under(at, r + [k]);
  }

  lemma DepsBounded(repo: Repo, root: Dir, at: Tree, r: Route, s: Route)
    requires Built(repo, root, 0, at) && s in at && Extends(s, r) && |s| > |r|
    ensures r in at && s[|r|] < |at[r].deps|
  {
    assert NodeAt(repo, root, 0, at, s);
    var dirs :| Visits(repo, root, s, dirs) && dirs[|s|] == at[s].node.dir;
    AlongTheWay(repo, root, at, s, dirs, |r|);
    assert NodeAt(repo, root, 0, at, r);
    assert DependsAt(repo, dirs[|r|], s[|r|], dirs[|r| + 1]);
  }

  /** The nodes of all routes below `r`, parents before their dependencies, dependencies in order. */
  ghost predicate InPreorder(at: Tree, r: Route, out: seq<PkgNode>) {
    exists routes :: AreNodes(at, routes, out) && ListsAll(at, r, routes)
  }

  /** All packages below a node: parents before their dependencies, dependencies in order,
      every dependency path exactly once. */
  method AllNodes(n: PkgNode, ghost repo: Repo, ghost root: Dir, ghost at: Tree, ghost r: Route)
    returns (out: seq<PkgNode>)
    requires Built(repo, root, 0, at) && Shows(at) && r in at && at[r].node == n
    ensures InPreorder(at, r, out)
    decreases Under(at, r)
  {
    out := [n];
    ghost var routes := [r];
    SpotShown(at, r);
    RootListed(at, r);
    hide Built, Shows, NodeAt, Lists, ListsAll, Extends, Under, AreNodes;
    for i := 0 to |n.deps|
      invariant AreNodes(at, routes, out) && Lists(at, r, i, routes)
    {
      DepInTree(repo, root, at, r, i);
      UnderShrinks(at, r, i);
      var more := AllNodes(n.deps[i], repo, root, at, r + [i]);
      ghost var below :| AreNodes(at, below, more) && ListsAll(at, r + [i], below);
      ListsMore(at, r, i, routes, below);
      NodesMore(at, routes, out, below, more);
      out, routes := out + more, routes + below;
    }
    ListedIsAll(repo, root, at, r, routes);
  }

  lemma RootListed(at: Tree, r: Route)
    requires r in at
    ensures Lists(at, r, 0, [r]) && AreNodes(at, [r], [at[r].node])
  {
    forall s | s in at && Extends(s, r) && |s| <= |r|
      ensures s == r
    {
      assert s == s[..|r|];
    }
  }

  lemma DepInTree(repo: Repo, root: Dir, at: Tree, r: Route, i: nat)
    requires Built(repo, root, 0, at) && Shows(at) && r in at && i < |at[r].node.deps|
    ensures r + [i] in at && at[r + [i]].node == at[r].node.deps[i]
    ensures at[r].node.deps == at[r].deps
  {
    assert NodeAt(repo, root, 0, at, r);
    SpotShown(at, r);
  }

  lemma NodesMore(at: Tree, routes: seq<Route>, out: seq<PkgNode>, below: seq<Route>, more: seq<PkgNode>)
    requires AreNodes(at, routes, out) && AreNodes(at, below, more)
    ensures AreNodes(at, routes + below, out + more)
  {
  }

  lemma ListedIsAll(repo: Repo, root: Dir, at: Tree, r: Route, routes: seq<Route>)
    requires Built(repo, root, 0, at) && r in at && Lists(at, r, |at[r].deps|, routes)
    ensures ListsAll(at, r, routes)
  {
    hide InOrder, Built;
    forall s | s in at && Extends(s, r) && |s| > |r|
      ensures s[|r|] < |at[r].deps|
    {
      DepsBounded(repo, root, at, r, s);
    }
  }
}
