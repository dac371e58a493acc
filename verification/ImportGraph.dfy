/** The import walk and the chains it explains: breadth-first search over modules. */
module ImportGraph {
  import opened Sequences
  import opened Options
  import opened Sorting

  /** A module's real path, as its rank in the order of paths. */
  type Module = nat

  /** What the parser and the resolver say: an absent module does not parse, and an
      import that resolves to nothing is None. */
  type Sources = map<Module, seq<Option<Module>>>

  type Edges = map<Module, seq<Module>>

  datatype AuditError = DoesNotParse(m: Module) | NotFound(importer: Module)
  datatype Walk = Walked(edges: Edges, order: seq<Module>) | Refused(error: AuditError)

  // ---------------------------------------------------------------------
  // Reachability.
  // ---------------------------------------------------------------------

  ghost predicate Imports(src: Sources, a: Module, b: Module) {
    a in src && Some(b) in src[a]
  }

  /** A chain of imports, edge by edge. */
  ghost predicate IsChain(src: Sources, p: seq<Module>) {
    p != [] && forall i :: 0 <= i < |p| - 1 ==> Imports(src, p[i], p[i + 1])
  }

  ghost predicate ChainTo(src: Sources, root: Module, m: Module, p: seq<Module>) {
    IsChain(src, p) && p[0] == root && p[|p| - 1] == m
  }

  ghost predicate Reachable(src: Sources, root: Module, m: Module) {
    exists p :: ChainTo(src, root, m, p)
  }

  /** The module parses and all its imports are found. */
  predicate Sound(src: Sources, m: Module) {
    m in src && None !in src[m]
  }

  lemma ReachableRoot(src: Sources, root: Module)
    ensures Reachable(src, root, root)
  {
    assert ChainTo(src, root, root, [root]);
  }

  lemma ReachableStep(src: Sources, root: Module, a: Module, b: Module)
    requires Reachable(src, root, a) && Imports(src, a, b)
    ensures Reachable(src, root, b)
  {
    var p :| ChainTo(src, root, a, p);
    assert ChainTo(src, root, b, p + [b]);
  }

  /** A set that contains the root and every import of its members contains everything reachable. */
  lemma {:induction false} ClosedContains(src: Sources, root: Module, s: set<Module>, p: seq<Module>)
    requires root in s && (forall a, b :: a in s && Imports(src, a, b) ==> b in s)
    requires IsChain(src, p) && p[0] == root
    ensures p[|p| - 1] in s
    decreases |p|
  {
    if |p| > 1 {
      var q := p[..|p| - 1];
      ClosedContains(src, root, s, q);
      assert Imports(src, p[|p| - 2], p[|p| - 1]);
    }
  }

  // ---------------------------------------------------------------------
  // The walk.
  // ---------------------------------------------------------------------

  predicate AtMost(a: nat, b: nat) { a <= b }

  /** The distinct imports of a module, in path order. */
  function Kids(imports: seq<Option<Module>>): seq<Module>
  {
    Sort(AtMost, Deduplicated(imports))
  }

  function Deduplicated(imports: seq<Option<Module>>): seq<Module> {
    if imports == [] then []
    else
      var front, last := Deduplicated(imports[..|imports| - 1]), imports[|imports| - 1];
      if last.Some? && last.value !in front then front + [last.value] else front
  }

  lemma {:induction false} DeduplicatedMembers(imports: seq<Option<Module>>)
    ensures forall m :: m in Deduplicated(imports) <==> Some(m) in imports
  {
    if imports != [] {
      DeduplicatedMembers(imports[..|imports| - 1]);
      assert imports == imports[..|imports| - 1] + [imports[|imports| - 1]];
    }
  }

  lemma KidsAreImports(imports: seq<Option<Module>>)
    ensures forall m :: m in Kids(imports) <==> Some(m) in imports
  {
    DeduplicatedMembers(imports);
    SortIsSorted(AtMost, Deduplicated(imports));
    forall m: Module
      ensures m in Kids(imports) <==> m in Deduplicated(imports)
    {
      assert m in Kids(imports) <==> m in multiset(Kids(imports));
      assert m in Deduplicated(imports) <==> m in multiset(Deduplicated(imports));
    }
  }

  /** `kids` are the modules that `m` imports, each once, in path order. */
  ghost predicate Lists(src: Sources, m: Module, kids: seq<Module>) {
    && (forall i, j :: 0 <= i < j < |kids| ==> kids[i] < kids[j])
    && (forall b :: b in kids <==> Imports(src, m, b))
  }

  lemma {:induction false} DeduplicatedDistinct(imports: seq<Option<Module>>)
    ensures Distinct(Deduplicated(imports))
  {
    if imports != [] {
      DeduplicatedDistinct(imports[..|imports| - 1]);
    }
  }

  lemma {:induction false} SortKeepsDistinct(xs: seq<nat>)
    requires Distinct(xs)
    ensures Distinct(Sort(AtMost, xs))
    decreases |xs|
  {
    SortIsSorted(AtMost, xs);
    var s := Sort(AtMost, xs);
    hide Sort;
    forall i, j | 0 <= i < j < |s|
      ensures s[i] != s[j]
    {
      if s[i] == s[j] {
        TwiceCounts(s, i, j);
        OnceCounts(xs, s[i]);
      }
    }
  }

  lemma TwiceCounts(s: seq<nat>, i: nat, j: nat)
    requires i < j < |s| && s[i] == s[j]
    ensures multiset(s)[s[i]] >= 2
  {
    assert s == s[..i] + [s[i]] + s[i + 1..j] + [s[j]] + s[j + 1..];
  }

  lemma {:induction false} OnceCounts(xs: seq<nat>, x: nat)
    requires Distinct(xs)
    ensures multiset(xs)[x] <= 1
    decreases |xs|
  {
    if xs != [] {
      var front, last := xs[..|xs| - 1], xs[|xs| - 1];
      assert xs == front + [last];
      OnceCounts(front, x);
      if x == last {
        assert x !in multiset(front);
      }
    }
  }

  lemma KidsAreListed(src: Sources, m: Module)
    requires m in src
    ensures Lists(src, m, Kids(src[m]))
  {
    var kids := Kids(src[m]);
    KidsAreImports(src[m]);
    DeduplicatedDistinct(src[m]);
    SortKeepsDistinct(Deduplicated(src[m]));
    SortIsSorted(AtMost, Deduplicated(src[m]));
    hide Sort, Deduplicated;
    forall i, j | 0 <= i < j < |kids|
      ensures kids[i] < kids[j]
    {
      assert AtMost(kids[i], kids[j]) && kids[i] != kids[j];
    }
  }

  /** What the walk has done so far. */
  ghost predicate WalkInv(src: Sources, root: Module, edges: Edges, order: seq<Module>, seen: set<Module>,
                          queue: seq<Module>) {
    && Distinct(order) && Members(order) == seen == edges.Keys
    && (forall m :: m in seen || m in queue ==> Reachable(src, root, m))
    && (forall m :: m in seen ==> Sound(src, m) && edges[m] == Kids(src[m]))
    && (forall a, b :: a in seen && Imports(src, a, b) ==> b in seen || b in queue)
    && (root in seen || root in queue)
  }

  lemma WalkVisits(src: Sources, root: Module, edges: Edges, order: seq<Module>, seen: set<Module>,
                   queue: seq<Module>, kids: seq<Module>)
    requires WalkInv(src, root, edges, order, seen, queue) && queue != []
    requires queue[0] !in seen && Sound(src, queue[0])
    requires forall m :: m in kids <==> Some(m) in src[queue[0]]
    ensures var cur := queue[0];
            WalkInv(src, root, edges[cur := Kids(src[cur])], order + [cur], seen + {cur}, queue[1..] + kids)
  {
    var cur := queue[0];
    VisitMembers(order, queue, kids);
    assert cur in queue;
    forall b | b in kids
      ensures Reachable(src, root, b)
    {
      ReachableStep(src, root, cur, b);
    }
    var seen', queue' := seen + {cur}, queue[1..] + kids;
    forall a, b | a in seen' && Imports(src, a, b)
      ensures b in seen' || b in queue'
    {
      if a != cur {
        assert b in seen || b in queue;
      }
    }
  }

  lemma VisitMembers(order: seq<Module>, queue: seq<Module>, more: seq<Module>)
    requires queue != [] && Distinct(order)
    ensures Members(order + [queue[0]]) == Members(order) + {queue[0]}
    ensures queue[0] !in Members(order) ==> Distinct(order + [queue[0]])
    ensures forall m :: m in queue[1..] + more <==> m in queue[1..] || m in more
    ensures forall m :: m in queue <==> m == queue[0] || m in queue[1..]
  {
    assert queue == [queue[0]] + queue[1..];
  }

  lemma WalkSkips(src: Sources, root: Module, edges: Edges, order: seq<Module>, seen: set<Module>, queue: seq<Module>)
    requires WalkInv(src, root, edges, order, seen, queue) && queue != [] && queue[0] in seen
    ensures WalkInv(src, root, edges, order, seen, queue[1..])
  {
    assert forall m :: m in queue <==> m == queue[0] || m in queue[1..];
  }

  /** What a finished walk has found. */
  ghost predicate WalkedAll(src: Sources, root: Module, edges: Edges, order: seq<Module>) {
    && Distinct(order)
    && (forall m :: m in order <==> Reachable(src, root, m))
    && (forall m :: m in order ==> Sound(src, m))
    && edges.Keys == Members(order) && (forall m :: m in order ==> edges[m] == Kids(src[m]))
  }

  lemma WalkEnds(src: Sources, root: Module, edges: Edges, order: seq<Module>, seen: set<Module>)
    requires WalkInv(src, root, edges, order, seen, [])
    ensures WalkedAll(src, root, edges, order)
  {
    forall m | Reachable(src, root, m)
      ensures m in order
    {
      var p :| ChainTo(src, root, m, p);
      ClosedContains(src, root, seen, p);
    }
  }

  lemma WalkStarts(src: Sources, root: Module)
    ensures WalkInv(src, root, map[], [], {}, [root])
  {
    ReachableRoot(src, root);
  }

  lemma HeadIsReachable(src: Sources, root: Module, edges: Edges, order: seq<Module>, seen: set<Module>,
                        queue: seq<Module>)
    requires WalkInv(src, root, edges, order, seen, queue) && queue != []
    ensures Reachable(src, root, queue[0]) && (queue[0] in seen ==> queue[0] in src) && seen <= src.Keys
  {
    assert queue[0] in queue;
  }

  // ---------------------------------------------------------------------
  // The order of the walk.
  // ---------------------------------------------------------------------

  /** Some chain of exactly `d` imports leads from the entry to the module. */
  ghost predicate Far(src: Sources, root: Module, m: Module, d: nat) {
    exists p :: ChainTo(src, root, m, p) && |p| == d + 1
  }

  /** The module was visited, or waits, no further than `d` imports from the entry. */
  ghost predicate Met(dist: map<Module, nat>, queue: seq<Module>, levels: seq<nat>, m: Module, d: nat)
    requires |levels| == |queue|
  {
    (m in dist && dist[m] <= d) || exists i :: 0 <= i < |queue| && queue[i] == m && levels[i] <= d
  }

  /** The queue holds two levels at most, in order, and no visited module lies beyond its head. */
  ghost predicate LevelsInv(dist: map<Module, nat>, order: seq<Module>, queue: seq<Module>, levels: seq<nat>) {
    && |levels| == |queue| && dist.Keys == Members(order)
    && (forall i, j :: 0 <= i < j < |levels| ==> levels[i] <= levels[j] <= levels[0] + 1)
    && (forall i, j :: 0 <= i < j < |order| ==> dist[order[i]] <= dist[order[j]])
    && (queue != [] ==> forall m :: m in dist ==> dist[m] <= levels[0])
  }

  ghost predicate DistancesInv(src: Sources, root: Module, dist: map<Module, nat>, queue: seq<Module>,
                               levels: seq<nat>) {
    && |levels| == |queue|
    && (forall m :: m in dist ==> Far(src, root, m, dist[m]))
    && (forall i :: 0 <= i < |queue| ==> Far(src, root, queue[i], levels[i]))
    && (forall a, b :: a in dist && Imports(src, a, b) ==> Met(dist, queue, levels, b, dist[a] + 1))
    && Met(dist, queue, levels, root, 0)
  }

  lemma FarStep(src: Sources, root: Module, a: Module, b: Module, d: nat)
    requires Far(src, root, a, d) && Imports(src, a, b)
    ensures Far(src, root, b, d + 1)
  {
    var p :| ChainTo(src, root, a, p) && |p| == d + 1;
    assert ChainTo(src, root, b, p + [b]);
  }

  lemma LevelsStart(src: Sources, root: Module)
    ensures LevelsInv(map[], [], [root], [0]) && DistancesInv(src, root, map[], [root], [0])
  {
    assert ChainTo(src, root, root, [root]);
    assert Far(src, root, root, 0);
  }

  lemma MetLater(dist: map<Module, nat>, queue: seq<Module>, levels: seq<nat>, m: Module, d: nat,
                 dist': map<Module, nat>, more: seq<Module>, level: nat)
    requires |levels| == |queue| && queue != [] && Met(dist, queue, levels, m, d)
    requires forall x :: x in dist ==> x in dist' && dist'[x] == dist[x]
    requires queue[0] in dist' && dist'[queue[0]] <= levels[0]
    ensures Met(dist', queue[1..] + more, levels[1..] + seq(|more|, i => level), m, d)
  {
    if !(m in dist && dist[m] <= d) {
      var i :| 0 <= i < |queue| && queue[i] == m && levels[i] <= d;
      if i > 0 {
        assert (queue[1..] + more)[i - 1] == m && (levels[1..] + seq(|more|, k => level))[i - 1] == levels[i];
      }
    }
  }

  lemma LevelsSkip(src: Sources, root: Module, dist: map<Module, nat>, order: seq<Module>, queue: seq<Module>,
                   levels: seq<nat>)
    requires LevelsInv(dist, order, queue, levels) && DistancesInv(src, root, dist, queue, levels)
    requires queue != [] && queue[0] in dist
    ensures LevelsInv(dist, order, queue[1..], levels[1..]) && DistancesInv(src, root, dist, queue[1..], levels[1..])
  {
    var none: seq<Module> := [];
    assert queue[1..] + none == queue[1..] && levels[1..] + seq(|none|, i => 0) == levels[1..];
    hide Far, Met;
    forall a, b | a in dist && Imports(src, a, b)
      ensures Met(dist, queue[1..], levels[1..], b, dist[a] + 1)
    {
      MetLater(dist, queue, levels, b, dist[a] + 1, dist, none, 0);
    }
    MetLater(dist, queue, levels, root, 0, dist, none, 0);
  }

  lemma LevelsVisit(dist: map<Module, nat>, order: seq<Module>, queue: seq<Module>, levels: seq<nat>, kids: seq<Module>)
    requires LevelsInv(dist, order, queue, levels) && queue != [] && queue[0] !in dist
    ensures LevelsInv(dist[queue[0] := levels[0]], order + [queue[0]], queue[1..] + kids,
                      levels[1..] + seq(|kids|, i => levels[0] + 1))
  {
    var cur, order' := queue[0], order + [queue[0]];
    assert Members(order') == Members(order) + {cur};
    assert forall i :: 0 <= i < |order| ==> order[i] in Members(order);
    hide Members;
  }

  lemma DistancesVisit(src: Sources, root: Module, dist: map<Module, nat>, queue: seq<Module>, levels: seq<nat>,
                       kids: seq<Module>)
    requires DistancesInv(src, root, dist, queue, levels) && queue != [] && queue[0] !in dist
    requires forall m :: m in kids <==> Imports(src, queue[0], m)
    ensures DistancesInv(src, root, dist[queue[0] := levels[0]], queue[1..] + kids,
                         levels[1..] + seq(|kids|, i => levels[0] + 1))
  {
    var cur, level := queue[0], levels[0] + 1;
    var dist', queue', levels' := dist[cur := levels[0]], queue[1..] + kids, levels[1..] + seq(|kids|, i => level);
    hide Far, Imports;
    forall i | 0 <= i < |queue'|
      ensures Far(src, root, queue'[i], levels'[i])
    {
      if i >= |queue| - 1 {
        assert queue'[i] in kids;
        FarStep(src, root, cur, queue'[i], levels[0]);
      }
    }
    forall a, b | a in dist' && Imports(src, a, b)
      ensures Met(dist', queue', levels', b, dist'[a] + 1)
    {
      if a == cur {
        var k :| 0 <= k < |kids| && kids[k] == b;
        assert queue'[|queue| - 1 + k] == b && levels'[|queue| - 1 + k] == level;
      } else {
        MetLater(dist, queue, levels, b, dist[a] + 1, dist', kids, level);
      }
    }
    MetLater(dist, queue, levels, root, 0, dist', kids, level);
  }

  /** When the queue is empty no chain is shorter than the recorded distance. */
  lemma {:induction false} NoneIsNearer(src: Sources, root: Module, dist: map<Module, nat>, p: seq<Module>)
    requires DistancesInv(src, root, dist, [], [])
    requires IsChain(src, p) && p[0] == root
    ensures p[|p| - 1] in dist && dist[p[|p| - 1]] <= |p| - 1
    decreases |p|
  {
    if |p| > 1 {
      NoneIsNearer(src, root, dist, p[..|p| - 1]);
      assert Imports(src, p[|p| - 2], p[|p| - 1]);
    }
  }

  /** Along the order the modules get no nearer to the entry: whatever chain leads to a later
      one, some chain that is no longer leads to an earlier one. */
  ghost predicate InBreadthOrder(src: Sources, root: Module, order: seq<Module>) {
    forall i, j, p :: 0 <= i < j < |order| && ChainTo(src, root, order[j], p) ==>
      exists q :: ChainTo(src, root, order[i], q) && |q| <= |p|
  }

  lemma LevelsEnd(src: Sources, root: Module, dist: map<Module, nat>, order: seq<Module>)
    requires LevelsInv(dist, order, [], []) && DistancesInv(src, root, dist, [], [])
    ensures InBreadthOrder(src, root, order)
  {
    forall i, j, p | 0 <= i < j < |order| && ChainTo(src, root, order[j], p)
      ensures exists q :: ChainTo(src, root, order[i], q) && |q| <= |p|
    {
      NoneIsNearer(src, root, dist, p);
      assert order[i] in Members(order);
      assert Far(src, root, order[i], dist[order[i]]);
    }
  }

  lemma KidsAreTheImports(src: Sources, cur: Module, kids: seq<Module>)
    requires cur in src && forall m :: m in kids <==> Some(m) in src[cur]
    ensures forall m :: m in kids <==> Imports(src, cur, m)
  {
  }

  lemma VisitedIsSeen(dist: map<Module, nat>, order: seq<Module>, queue: seq<Module>, levels: seq<nat>)
    requires LevelsInv(dist, order, queue, levels)
    ensures dist.Keys == Members(order) && |levels| == |queue|
  {
  }

  lemma SeenIsMembers(src: Sources, root: Module, edges: Edges, order: seq<Module>, seen: set<Module>,
                      queue: seq<Module>)
    requires WalkInv(src, root, edges, order, seen, queue)
    ensures seen == Members(order)
  {
  }

  /** The import walk.  It refuses exactly when some reachable module does not parse or
      imports something that is not found; otherwise it lists every reachable module once,
      nearest first. */
  method WalkImportGraph(src: Sources, root: Module) returns (r: Walk)
    ensures r.Walked? ==> WalkedAll(src, root, r.edges, r.order) && InBreadthOrder(src, root, r.order)
    ensures r.Walked? ==> forall m :: m in r.order ==> Lists(src, m, r.edges[m])
    ensures r.Refused? ==>
              match r.error
              case DoesNotParse(m) => Reachable(src, root, m) && m !in src
              case NotFound(m) => Reachable(src, root, m) && m in src && None in src[m]
    ensures r.Walked? <==> forall m :: Reachable(src, root, m) ==> Sound(src, m)
  {
    hide *;
    var edges: Edges, order, seen: set<Module>, queue := map[], [], {}, [root];
    ghost var dist: map<Module, nat>, levels: seq<nat> := map[], [0];
    WalkStarts(src, root);
    LevelsStart(src, root);
    while queue != []
      invariant WalkInv(src, root, edges, order, seen, queue)
      invariant LevelsInv(dist, order, queue, levels) && DistancesInv(src, root, dist, queue, levels)
      decreases src.Keys - seen, |queue|
    {
      var cur := queue[0];
      HeadIsReachable(src, root, edges, order, seen, queue);
      SeenIsMembers(src, root, edges, order, seen, queue);
      VisitedIsSeen(dist, order, queue, levels);
      if cur in seen {
        WalkSkips(src, root, edges, order, seen, queue);
        LevelsSkip(src, root, dist, order, queue, levels);
        queue, levels := queue[1..], levels[1..];
        continue;
      }
      if cur !in src {
        Unsound(src, root, cur);
        return Refused(DoesNotParse(cur));
      }
      var imports := src[cur];
      var kids: seq<Module> := [];
      for i := 0 to |imports|
        invariant forall m :: m in kids <==> Some(m) in imports[..i]
        invariant None !in imports[..i]
      {
        assert imports[..i + 1] == imports[..i] + [imports[i]];
        if imports[i] == None {
          assert None in imports;
          Unsound(src, root, cur);
          return Refused(NotFound(cur));
        }
        kids := kids + [imports[i].value];
      }
      assert imports[..|imports|] == imports;
      SoundHere(src, cur);
      WalkVisits(src, root, edges, order, seen, queue, kids);
      KidsAreTheImports(src, cur, kids);
      LevelsVisit(dist, order, queue, levels, kids);
      DistancesVisit(src, root, dist, queue, levels, kids);
      dist, levels := dist[cur := levels[0]], levels[1..] + seq(|kids|, i => levels[0] + 1);
      assert src.Keys - (seen + {cur}) < src.Keys - seen;
      edges, order, seen, queue := edges[cur := Kids(imports)], order + [cur], seen + {cur}, queue[1..] + kids;
    }
    WalkEnds(src, root, edges, order, seen);
    AllSound(src, root, edges, order);
    AllListed(src, root, edges, order);
    assert levels == [] by { VisitedIsSeen(dist, order, queue, levels); }
    LevelsEnd(src, root, dist, order);
    return Walked(edges, order);
  }

  lemma Unsound(src: Sources, root: Module, m: Module)
    requires Reachable(src, root, m) && (m !in src || None in src[m])
    ensures !Sound(src, m)
  {
  }

  lemma AllListed(src: Sources, root: Module, edges: Edges, order: seq<Module>)
    requires WalkedAll(src, root, edges, order)
    ensures edges.Keys == Members(order) && forall m :: m in order ==> m in edges && Lists(src, m, edges[m])
  {
    hide Kids, Lists;
    forall m | m in order
      ensures Lists(src, m, edges[m])
    {
      KidsAreListed(src, m);
    }
  }

  lemma AllSound(src: Sources, root: Module, edges: Edges, order: seq<Module>)
    requires WalkedAll(src, root, edges, order)
    ensures forall m :: Reachable(src, root, m) ==> Sound(src, m)
  {
  }

  lemma SoundHere(src: Sources, m: Module)
    requires m in src && None !in src[m]
    ensures Sound(src, m)
  {
  }
}
