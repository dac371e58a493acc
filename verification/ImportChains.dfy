/** Shortest import chains: breadth-first parents, and reading a chain back from them. */
module ImportChains {
  import opened Sequences
  import opened ImportGraph

  // ---------------------------------------------------------------------
  // Chains in an edge table.
  // ---------------------------------------------------------------------

  ghost predicate Edge(edges: Edges, a: Module, b: Module) {
    a in edges && b in edges[a]
  }

  ghost predicate EdgePath(edges: Edges, root: Module, m: Module, p: seq<Module>) {
    p != [] && p[0] == root && p[|p| - 1] == m &&
    forall i :: 0 <= i < |p| - 1 ==> Edge(edges, p[i], p[i + 1])
  }

  ghost predicate Connected(edges: Edges, root: Module, m: Module) {
    exists p :: EdgePath(edges, root, m, p)
  }

  ghost predicate IsShortest(edges: Edges, root: Module, m: Module, p: seq<Module>) {
    EdgePath(edges, root, m, p) && forall q :: EdgePath(edges, root, m, q) ==> |p| <= |q|
  }

  function KidsOf(edges: Edges, m: Module): seq<Module> {
    if m in edges then edges[m] else []
  }

  ghost function Universe(edges: Edges, root: Module): set<Module> {
    {root} + set a, b | a in edges && b in edges[a] :: b
  }

  // ---------------------------------------------------------------------
  // The search.
  // ---------------------------------------------------------------------

  /** `dist` is how far from the root each module was first seen; parents are one closer. */
  ghost predicate ParentsInv(edges: Edges, root: Module, parents: map<Module, Module>, dist: map<Module, nat>) {
    && root in dist && dist[root] == 0 && root !in parents
    && dist.Keys == parents.Keys + {root} && dist.Keys <= Universe(edges, root)
    && forall m :: m in parents ==>
         parents[m] in dist && Edge(edges, parents[m], m) && dist[m] == dist[parents[m]] + 1
  }

  /** The queue holds the last two levels in order; modules that left it are no deeper. */
  ghost predicate QueueInv(dist: map<Module, nat>, queue: seq<Module>) {
    && (forall m :: m in queue ==> m in dist)
    && (forall i, j :: 0 <= i < j < |queue| ==> dist[queue[i]] <= dist[queue[j]] <= dist[queue[0]] + 1)
    && (queue != [] ==> forall m :: m in dist && m !in queue ==> dist[m] <= dist[queue[0]])
  }

  /** The children of a module already expanded have been seen, at most one level deeper. */
  ghost predicate Expanded(edges: Edges, dist: map<Module, nat>, a: Module) {
    a in dist && forall b :: Edge(edges, a, b) ==> b in dist && dist[b] <= dist[a] + 1
  }

  ghost predicate SearchInv(edges: Edges, root: Module, parents: map<Module, Module>, dist: map<Module, nat>,
                            queue: seq<Module>) {
    && ParentsInv(edges, root, parents, dist) && QueueInv(dist, queue)
    && forall a :: a in dist && a !in queue ==> Expanded(edges, dist, a)
  }

  /** Every path to a module is at least as long as the distance the search found. */
  lemma {:induction false} DistanceIsLeast(edges: Edges, root: Module, dist: map<Module, nat>, m: Module,
                                           p: seq<Module>)
    requires root in dist && dist[root] == 0
    requires forall a :: a in dist ==> Expanded(edges, dist, a)
    requires EdgePath(edges, root, m, p)
    ensures m in dist && dist[m] <= |p| - 1
    decreases |p|
  {
    if |p| > 1 {
      var q := p[..|p| - 1];
      assert Edge(edges, p[|p| - 2], p[|p| - 1]);
      DistanceIsLeast(edges, root, dist, p[|p| - 2], q);
      assert Expanded(edges, dist, p[|p| - 2]);
    }
  }

  /** While the children of `cur`, just taken off the queue, are being looked at. */
  ghost predicate Expanding(edges: Edges, dist: map<Module, nat>, cur: Module, queue: seq<Module>, done: nat)
    requires done <= |KidsOf(edges, cur)|
  {
    && cur in dist
    && (forall m :: m in queue ==> m in dist && dist[cur] <= dist[m] <= dist[cur] + 1)
    && (forall i, j :: 0 <= i < j < |queue| ==> dist[queue[i]] <= dist[queue[j]])
    && (forall m :: m in dist && m !in queue ==> dist[m] <= dist[cur])
    && (forall i :: 0 <= i < done ==> KidsOf(edges, cur)[i] in dist)
    && (forall a :: a in dist && a !in queue && a != cur ==> Expanded(edges, dist, a))
  }

  lemma StartExpanding(edges: Edges, root: Module, parents: map<Module, Module>, dist: map<Module, nat>,
                       queue: seq<Module>)
    requires SearchInv(edges, root, parents, dist, queue) && queue != []
    ensures Expanding(edges, dist, queue[0], queue[1..], 0)
  {
    var cur, rest := queue[0], queue[1..];
    assert queue == [cur] + rest;
    assert cur in queue;
    forall m | m in rest
      ensures m in dist && dist[cur] <= dist[m] <= dist[cur] + 1
    {
      var j :| 0 <= j < |rest| && rest[j] == m;
      assert queue[j + 1] == m;
    }
  }

  lemma NewParent(edges: Edges, root: Module, parents: map<Module, Module>, dist: map<Module, nat>, cur: Module,
                  kid: Module)
    requires ParentsInv(edges, root, parents, dist) && cur in dist && Edge(edges, cur, kid) && kid !in dist
    ensures ParentsInv(edges, root, parents[kid := cur], dist[kid := dist[cur] + 1]) && kid in Universe(edges, root)
  {
  }

  lemma StillExpanded(edges: Edges, dist: map<Module, nat>, kid: Module, d: nat, a: Module)
    requires Expanded(edges, dist, a) && kid !in dist
    ensures Expanded(edges, dist[kid := d], a)
  {
  }

  lemma NewInQueue(edges: Edges, dist: map<Module, nat>, cur: Module, queue: seq<Module>, done: nat)
    requires done < |KidsOf(edges, cur)| && Expanding(edges, dist, cur, queue, done)
    requires KidsOf(edges, cur)[done] !in dist
    ensures var kid := KidsOf(edges, cur)[done];
            Expanding(edges, dist[kid := dist[cur] + 1], cur, queue + [kid], done + 1)
  {
    hide Expanded;
    var kid := KidsOf(edges, cur)[done];
    var dist', queue' := dist[kid := dist[cur] + 1], queue + [kid];
    assert forall m :: m in queue' <==> m in queue || m == kid;
    forall a | a in dist' && a !in queue' && a != cur
      ensures Expanded(edges, dist', a)
    {
      StillExpanded(edges, dist, kid, dist[cur] + 1, a);
    }
    forall i, j | 0 <= i < j < |queue'|
      ensures dist'[queue'[i]] <= dist'[queue'[j]]
    {
      assert queue'[i] in queue;
    }
  }

  lemma SeeKid(edges: Edges, root: Module, parents: map<Module, Module>, dist: map<Module, nat>,
               cur: Module, queue: seq<Module>, done: nat)
    requires done < |KidsOf(edges, cur)| && Expanding(edges, dist, cur, queue, done)
    requires ParentsInv(edges, root, parents, dist)
    ensures cur in dist
    ensures var kid := KidsOf(edges, cur)[done];
            if kid in dist then Expanding(edges, dist, cur, queue, done + 1)
            else
              var dist' := dist[kid := dist[cur] + 1];
              && Expanding(edges, dist', cur, queue + [kid], done + 1)
              && ParentsInv(edges, root, parents[kid := cur], dist')
              && kid in Universe(edges, root)
  {
    hide Expanded, ParentsInv;
    var kid := KidsOf(edges, cur)[done];
    assert Edge(edges, cur, kid);
    if kid !in dist {
      NewInQueue(edges, dist, cur, queue, done);
      NewParent(edges, root, parents, dist, cur, kid);
      hide Expanding;
    }
  }

  lemma FinishExpanding(edges: Edges, root: Module, parents: map<Module, Module>, dist: map<Module, nat>,
                        cur: Module, queue: seq<Module>)
    requires Expanding(edges, dist, cur, queue, |KidsOf(edges, cur)|) && ParentsInv(edges, root, parents, dist)
    ensures SearchInv(edges, root, parents, dist, queue)
  {
    forall b | Edge(edges, cur, b)
      ensures b in dist && dist[b] <= dist[cur] + 1
    {
      var i :| 0 <= i < |KidsOf(edges, cur)| && KidsOf(edges, cur)[i] == b;
    }
    assert Expanded(edges, dist, cur);
    if queue != [] {
      assert queue[0] in queue;
      forall j | 0 <= j < |queue|
        ensures dist[queue[j]] <= dist[queue[0]] + 1
      {
        assert queue[j] in queue;
      }
    }
  }

  lemma SearchStarts(edges: Edges, root: Module)
    ensures SearchInv(edges, root, map[], map[root := 0], [root])
  {
  }

  /** The breadth-first parents of everything connected to the root. */
  method SearchParents(edges: Edges, root: Module) returns (parents: map<Module, Module>)
    ensures exists dist :: SearchInv(edges, root, parents, dist, [])
  {
    hide *;
    var queue, seen := [root], {root};
    parents := map[];
    ghost var dist: map<Module, nat> := map[root := 0];
    SearchStarts(edges, root);
    while queue != []
      invariant SearchInv(edges, root, parents, dist, queue)
      invariant seen == dist.Keys
      decreases Universe(edges, root) - seen, |queue|
    {
      var cur := queue[0];
      StartExpanding(edges, root, parents, dist, queue);
      SearchParts(edges, root, parents, dist, queue);
      ghost var seen0, queue0 := seen, queue;
      queue := queue[1..];
      var kids := KidsOf(edges, cur);
      for i := 0 to |kids|
        invariant kids == KidsOf(edges, cur)
        invariant Expanding(edges, dist, cur, queue, i) && ParentsInv(edges, root, parents, dist)
        invariant seen == dist.Keys && seen0 <= seen
        invariant seen == seen0 ==> queue == queue0[1..]
        invariant Universe(edges, root) - seen <= Universe(edges, root) - seen0
        invariant seen != seen0 ==> Universe(edges, root) - seen != Universe(edges, root) - seen0
      {
        var kid := kids[i];
        SeeKid(edges, root, parents, dist, cur, queue, i);
        if kid !in seen {
          assert kid in Universe(edges, root) - seen;
          seen := seen + {kid};
          parents := parents[kid := cur];
          dist := dist[kid := dist[cur] + 1];
          queue := queue + [kid];
        }
      }
      FinishExpanding(edges, root, parents, dist, cur, queue);
    }
  }

  lemma SearchParts(edges: Edges, root: Module, parents: map<Module, Module>, dist: map<Module, nat>,
                    queue: seq<Module>)
    requires SearchInv(edges, root, parents, dist, queue) && queue != []
    ensures ParentsInv(edges, root, parents, dist) && queue[0] in dist
  {
    assert queue[0] in queue;
  }

  // ---------------------------------------------------------------------
  // Reading the chain back.
  // ---------------------------------------------------------------------

  /** `chain` climbs from `m` towards the root, one parent at a time. */
  ghost predicate Climbs(parents: map<Module, Module>, m: Module, chain: seq<Module>) {
    chain != [] && chain[0] == m &&
    forall i :: 0 <= i < |chain| - 1 ==> chain[i] in parents && parents[chain[i]] == chain[i + 1]
  }

  lemma {:induction false} ClimbIsPath(edges: Edges, root: Module, parents: map<Module, Module>, dist: map<Module, nat>,
                                       m: Module, chain: seq<Module>)
    requires ParentsInv(edges, root, parents, dist) && m in dist && Climbs(parents, m, chain)
    ensures |Reverse(chain)| == |chain| && chain[|chain| - 1] in dist
    ensures dist[m] == dist[chain[|chain| - 1]] + |chain| - 1
    ensures EdgePath(edges, chain[|chain| - 1], m, Reverse(chain))
    decreases |chain|
  {
    if |chain| > 1 {
      var front, top := chain[..|chain| - 1], chain[|chain| - 1];
      ClimbIsPath(edges, root, parents, dist, m, front);
      var p, q := Reverse(front), Reverse(chain);
      assert q == [top] + p;
      assert parents[chain[|chain| - 2]] == top;
      forall i | 0 <= i < |q| - 1
        ensures Edge(edges, q[i], q[i + 1])
      {
        if i > 0 { assert Edge(edges, p[i - 1], p[i]); }
      }
    } else {
      assert chain[..0] == [];
    }
  }

  lemma RootIsNearest(edges: Edges, root: Module, parents: map<Module, Module>, dist: map<Module, nat>,
                      chain: seq<Module>)
    requires SearchInv(edges, root, parents, dist, []) && chain != [] && Climbs(parents, chain[0], chain)
    requires chain[|chain| - 1] == root && chain[0] in dist
    ensures IsShortest(edges, root, chain[0], Reverse(chain))
  {
    ClimbIsPath(edges, root, parents, dist, chain[0], chain);
    forall q | EdgePath(edges, root, chain[0], q)
      ensures |Reverse(chain)| <= |q|
    {
      DistanceIsLeast(edges, root, dist, chain[0], q);
    }
  }

  lemma Unconnected(edges: Edges, root: Module, parents: map<Module, Module>, dist: map<Module, nat>, m: Module)
    requires SearchInv(edges, root, parents, dist, [])
    ensures Connected(edges, root, m) ==> m in dist
  {
    if Connected(edges, root, m) {
      var p :| EdgePath(edges, root, m, p);
      DistanceIsLeast(edges, root, dist, m, p);
    }
  }

  lemma ChainGoesUp(edges: Edges, root: Module, parents: map<Module, Module>, dist: map<Module, nat>,
                    chain: seq<Module>)
    requires SearchInv(edges, root, parents, dist, []) && chain != [] && Climbs(parents, chain[0], chain)
    requires chain[|chain| - 1] != root
    ensures var top := chain[|chain| - 1];
            if chain[0] in dist then
              && top in parents && Climbs(parents, chain[0], chain + [parents[top]])
              && parents[top] in dist && top in dist && dist[parents[top]] < dist[top]
            else |chain| == 1 ==> top !in parents
  {
    if chain[0] in dist {
      ClimbIsPath(edges, root, parents, dist, chain[0], chain);
    }
  }

  /** The chain from the root to a module: a real path of least length whenever there is
      one; the two-element stand-in exactly when there is none. */
  method ChainToRoot(m: Module, edges: Edges, root: Module) returns (chain: seq<Module>)
    ensures Connected(edges, root, m) ==> IsShortest(edges, root, m, chain)
    ensures !Connected(edges, root, m) ==> chain == [root, m]
  {
    hide *;
    if m == root {
      RootAlone(edges, root);
      return [root];
    }
    var parents := SearchParents(edges, root);
    ghost var dist :| SearchInv(edges, root, parents, dist, []);
    Unconnected(edges, root, parents, dist, m);
    chain := [m];
    ClimbStarts(parents, m);
    while chain[|chain| - 1] != root
      invariant chain != [] && chain[0] == m && Climbs(parents, m, chain)
      invariant if m in dist then chain[|chain| - 1] in dist else chain == [m]
      decreases if chain[|chain| - 1] in dist then dist[chain[|chain| - 1]] else 0
    {
      ChainGoesUp(edges, root, parents, dist, chain);
      var top := chain[|chain| - 1];
      if top !in parents {
        return [root, m];
      }
      chain := chain + [parents[top]];
    }
    RootIsNearest(edges, root, parents, dist, chain);
    chain := Reverse(chain);
    ShortestConnects(edges, root, m, chain);
  }

  lemma ShortestConnects(edges: Edges, root: Module, m: Module, p: seq<Module>)
    requires IsShortest(edges, root, m, p)
    ensures Connected(edges, root, m)
  {
  }

  lemma RootAlone(edges: Edges, root: Module)
    ensures Connected(edges, root, root) && IsShortest(edges, root, root, [root])
  {
    assert EdgePath(edges, root, root, [root]);
  }

  lemma ClimbStarts(parents: map<Module, Module>, m: Module)
    ensures Climbs(parents, m, [m])
  {
  }

  // ---------------------------------------------------------------------
  // The walk and the chains together.
  // ---------------------------------------------------------------------

  /** In the edge table of a finished walk, paths from the entry are exactly the import chains. */
  lemma {:induction false} WalkedPaths(src: Sources, root: Module, edges: Edges, order: seq<Module>, m: Module,
                                       p: seq<Module>)
    requires WalkedAll(src, root, edges, order)
    ensures EdgePath(edges, root, m, p) <==> ChainTo(src, root, m, p)
    decreases |p|
  {
    if |p| == 1 {
    } else if |p| > 1 {
      var q, a := p[..|p| - 1], p[|p| - 2];
      WalkedPaths(src, root, edges, order, a, q);
      if EdgePath(edges, root, a, q) {
        assert Reachable(src, root, a);
        KidsAreImports(src[a]);
        assert Edge(edges, a, p[|p| - 1]) <==> Imports(src, a, p[|p| - 1]);
        SnocPath(edges, src, root, m, p);
      } else {
        SnocPath(edges, src, root, m, p);
      }
    }
  }

  lemma SnocPath(edges: Edges, src: Sources, root: Module, m: Module, p: seq<Module>)
    requires |p| > 1
    ensures var q, a := p[..|p| - 1], p[|p| - 2];
            && (EdgePath(edges, root, m, p) <==> EdgePath(edges, root, a, q) && p[|p| - 1] == m && Edge(edges, a, m))
            && (ChainTo(src, root, m, p) <==> ChainTo(src, root, a, q) && p[|p| - 1] == m && Imports(src, a, m))
  {
    var q, a := p[..|p| - 1], p[|p| - 2];
    assert forall i :: 0 <= i < |q| ==> q[i] == p[i];
  }

  /** For every module the walk lists, the chain the report prints is a shortest chain of
      imports from the entry: the two-element stand-in is never needed. */
  method ExplainModule(src: Sources, root: Module, edges: Edges, order: seq<Module>, m: Module)
    returns (chain: seq<Module>)
    requires WalkedAll(src, root, edges, order) && m in order
    ensures ChainTo(src, root, m, chain)
    ensures forall p :: ChainTo(src, root, m, p) ==> |chain| <= |p|
  {
    ghost var p0 :| ChainTo(src, root, m, p0);
    WalkedPaths(src, root, edges, order, m, p0);
    chain := ChainToRoot(m, edges, root);
    forall p
      ensures EdgePath(edges, root, m, p) <==> ChainTo(src, root, m, p)
    {
      WalkedPaths(src, root, edges, order, m, p);
    }
  }
}
