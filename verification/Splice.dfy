/** From fix hints to new bytes: which edits survive, and what applying them means. */
module Splice {
  import opened Sequences
  import opened Sorting
  import opened SourceText

  /** Replace the bytes of `[start, end)` with `text`; an insertion has `start == end`. */
  datatype Edit = Edit(start: nat, end: nat, text: Source, rule: string, line: nat)

  predicate Overlaps(e: Edit, k: Edit) {
    e.start < k.end && k.start < e.end
  }

  /** Both spans hold byte `b`. */
  ghost predicate ShareByte(e: Edit, k: Edit, b: int) {
    e.start <= b < e.end && k.start <= b < k.end
  }

  /** `e` is an insertion strictly inside the span of `k`. */
  ghost predicate InsertsInto(e: Edit, k: Edit) {
    k.start < e.start == e.end < k.end
  }

  /** Two edits overlap exactly if they share a byte, or one is an insertion strictly inside the other. */
  lemma OverlapsInBytes(e: Edit, k: Edit)
    requires e.start <= e.end && k.start <= k.end
    ensures Overlaps(e, k) <==> (exists b :: ShareByte(e, k, b)) || InsertsInto(e, k) || InsertsInto(k, e)
  {
    if Overlaps(e, k) && e.start < e.end && k.start < k.end {
      assert ShareByte(e, k, if e.start < k.start then k.start else e.start);
    }
  }

  ghost predicate Fits(n: nat, edits: seq<Edit>) {
    forall i :: 0 <= i < |edits| ==> edits[i].start <= edits[i].end <= n
  }

  ghost predicate Disjoint(edits: seq<Edit>) {
    forall i, j :: 0 <= i < |edits| && 0 <= j < |edits| && i != j ==> !Overlaps(edits[i], edits[j])
  }

  /** By offset, the longest span first. */
  predicate ResolveOrder(a: Edit, b: Edit) {
    a.start < b.start || (a.start == b.start && a.end - a.start >= b.end - b.start)
  }

  predicate RightToLeft(a: Edit, b: Edit) {
    a.start >= b.start
  }

  lemma OrdersArePreorders()
    ensures TotalPreorder(ResolveOrder) && TotalPreorder(RightToLeft)
  {
  }

  // ---------------------------------------------------------------------
  // The reference: all edits at once.
  // ---------------------------------------------------------------------

  /** The edits come in order and do not reach into one another. */
  ghost predicate Ordered(n: nat, pos: nat, es: seq<Edit>)
    decreases es
  {
    if es == [] then pos <= n
    else pos <= es[0].start <= es[0].end <= n && Ordered(n, es[0].end, es[1..])
  }

  /** The source from `pos` on, with every edit's span replaced by its text. */
  function Substitute(src: Source, pos: nat, es: seq<Edit>): Source
    requires Ordered(|src|, pos, es)
    decreases es
  {
    if es == [] then src[pos..]
    else src[pos..es[0].start] + es[0].text + Substitute(src, es[0].end, es[1..])
  }

  function Growth(es: seq<Edit>): int {
    if es == [] then 0 else |es[0].text| - (es[0].end - es[0].start) + Growth(es[1..])
  }

  /** The length changes by exactly the sum of the edits. */
  lemma {:induction false} SubstituteLength(src: Source, pos: nat, es: seq<Edit>)
    requires Ordered(|src|, pos, es)
    ensures |Substitute(src, pos, es)| == |src| - pos + Growth(es)
    decreases es
  {
    if es != [] {
      SubstituteLength(src, es[0].end, es[1..]);
    }
  }

  /** `piece` stands in `r` from offset `k` on. */
  ghost predicate Stands(r: Source, k: int, piece: Source) {
    0 <= k && k + |piece| <= |r| && r[k..k + |piece|] == piece
  }

  lemma StandsFurtherRight(head: Source, tail: Source, k: int, piece: Source)
    requires Stands(tail, k, piece)
    ensures Stands(head + tail, |head| + k, piece)
  {
    assert (head + tail)[|head| + k..|head| + k + |piece|] == tail[k..k + |piece|];
  }

  /** The bytes between edit j - 1 and edit j, or the ends of the source. */
  function Gap(src: Source, pos: nat, es: seq<Edit>, j: nat): Source
    requires Ordered(|src|, pos, es) && j <= |es|
    decreases es
  {
    if es == [] then src[pos..]
    else if j == 0 then src[pos..es[0].start]
    else Gap(src, es[0].end, es[1..], j - 1)
  }

  /** Where the first byte after edit j - 1 comes to stand. */
  function Landing(pos: nat, es: seq<Edit>, j: nat): int
    requires j <= |es|
  {
    (if j == 0 then 0 else es[j - 1].end - pos) + Growth(es[..j])
  }

  /** Every byte outside the spans, and every replacement text, stands where the
      growth of the edits before it puts it: nothing outside a span changes. */
  lemma {:induction false} PiecesLand(src: Source, pos: nat, es: seq<Edit>, j: nat)
    requires Ordered(|src|, pos, es) && j <= |es|
    ensures Stands(Substitute(src, pos, es), Landing(pos, es, j), Gap(src, pos, es, j))
    ensures j < |es| ==> Stands(Substitute(src, pos, es), Landing(pos, es, j) + |Gap(src, pos, es, j)|, es[j].text)
    decreases es
  {
    if j == 0 {
      FirstPieceLands(src, pos, es);
    } else {
      var e, rest := es[0], es[1..];
      var head, tail := src[pos..e.start] + e.text, Substitute(src, e.end, rest);
      PiecesLand(src, e.end, rest, j - 1);
      LandingStep(pos, es, j);
      var k, gap := Landing(e.end, rest, j - 1), Gap(src, e.end, rest, j - 1);
      StandsFurtherRight(head, tail, k, gap);
      if j < |es| {
        StandsFurtherRight(head, tail, k + |gap|, rest[j - 1].text);
      }
    }
  }

  lemma FirstPieceLands(src: Source, pos: nat, es: seq<Edit>)
    requires Ordered(|src|, pos, es)
    ensures Stands(Substitute(src, pos, es), Landing(pos, es, 0), Gap(src, pos, es, 0))
    ensures es != [] ==> Stands(Substitute(src, pos, es), Landing(pos, es, 0) + |Gap(src, pos, es, 0)|, es[0].text)
  {
    assert es[..0] == [];
    if es != [] {
      var e := es[0];
      var before, tail := src[pos..e.start], Substitute(src, e.end, es[1..]);
      assert Substitute(src, pos, es) == before + (e.text + tail);
      assert Stands(e.text + tail, 0, e.text);
      StandsFurtherRight(before, e.text + tail, 0, e.text);
    }
  }

  lemma LandingStep(pos: nat, es: seq<Edit>, j: nat)
    requires 0 < j <= |es|
    ensures Landing(pos, es, j) == es[0].start - pos + |es[0].text| + Landing(es[0].end, es[1..], j - 1)
  {
    assert es[..j][1..] == es[1..][..j - 1];
    assert j > 1 ==> es[j - 1] == es[1..][j - 2];
    assert es[1..][..0] == [];
  }

  /** Every gap and every replacement text stands in `r` where it lands, counted from offset `k`. */
  ghost predicate PiecesStand(r: Source, k: int, src: Source, pos: nat, es: seq<Edit>)
    requires Ordered(|src|, pos, es)
  {
    forall j: nat | j <= |es| :: PieceStands(r, k, src, pos, es, j)
  }

  ghost predicate PieceStands(r: Source, k: int, src: Source, pos: nat, es: seq<Edit>, j: nat)
    requires Ordered(|src|, pos, es) && j <= |es|
  {
    var at, gap := k + Landing(pos, es, j), Gap(src, pos, es, j);
    Stands(r, at, gap) && (j < |es| ==> Stands(r, at + |gap|, es[j].text))
  }

  lemma {:induction false} PiecesDetermine(r: Source, k: nat, src: Source, pos: nat, es: seq<Edit>)
    requires Ordered(|src|, pos, es) && PiecesStand(r, k, src, pos, es)
    requires |r| == k + |Substitute(src, pos, es)|
    ensures r[k..] == Substitute(src, pos, es)
    decreases es
  {
    hide Landing, PiecesStand;
    FirstPieces(r, k, src, pos, es);
    if es != [] {
      var e := es[0];
      var next := k + (e.start - pos) + |e.text|;
      assert |r| == next + |Substitute(src, e.end, es[1..])|;
      LaterPieces(r, k, src, pos, es);
      PiecesDetermine(r, next, src, e.end, es[1..]);
      assert r[k..] == r[k..k + (e.start - pos)] + r[k + (e.start - pos)..next] + r[next..];
    }
  }

  lemma FirstPieces(r: Source, k: nat, src: Source, pos: nat, es: seq<Edit>)
    requires Ordered(|src|, pos, es) && PiecesStand(r, k, src, pos, es)
    ensures es == [] ==> Stands(r, k, src[pos..])
    ensures es != [] ==>
              Stands(r, k, src[pos..es[0].start]) && Stands(r, k + (es[0].start - pos), es[0].text)
  {
    assert Landing(pos, es, 0) == 0 by { assert es[..0] == []; }
    hide Landing, Stands, Growth;
    assert PieceStands(r, k, src, pos, es, 0);
    hide PiecesStand;
  }

  lemma LaterPieces(r: Source, k: nat, src: Source, pos: nat, es: seq<Edit>)
    requires es != [] && Ordered(|src|, pos, es) && PiecesStand(r, k, src, pos, es)
    ensures PiecesStand(r, k + (es[0].start - pos) + |es[0].text|, src, es[0].end, es[1..])
  {
    hide Landing, Stands, Growth;
    var next, rest := k + (es[0].start - pos) + |es[0].text|, es[1..];
    forall j: nat | j <= |rest|
      ensures PieceStands(r, next, src, es[0].end, rest, j)
    {
      LandingStep(pos, es, j + 1);
      assert PieceStands(r, k, src, pos, es, j + 1);
    }
  }

  /** The edits leave the file as it is exactly if their growths cancel and every gap and every
      replacement text stands already where it would come to stand. */
  lemma UnchangedExactly(src: Source, es: seq<Edit>)
    requires Ordered(|src|, 0, es)
    ensures Substitute(src, 0, es) == src <==> Growth(es) == 0 && PiecesStand(src, 0, src, 0, es)
  {
    SubstituteLength(src, 0, es);
    if Substitute(src, 0, es) == src {
      forall j: nat | j <= |es|
        ensures PieceStands(src, 0, src, 0, es, j)
      {
        PiecesLand(src, 0, es, j);
      }
    } else if Growth(es) == 0 && PiecesStand(src, 0, src, 0, es) {
      PiecesDetermine(src, 0, src, 0, es);
    }
  }

  // ---------------------------------------------------------------------
  // Overlap resolution.
  // ---------------------------------------------------------------------

  predicate Clashes(e: Edit, kept: seq<Edit>) {
    exists k :: 0 <= k < |kept| && Overlaps(e, kept[k])
  }

  /** The greedy choice over edits in the given order. */
  function Keep(es: seq<Edit>): (kept: seq<Edit>)
  {
    if es == [] then []
    else
      var kept, e := Keep(es[..|es| - 1]), es[|es| - 1];
      if Clashes(e, kept) then kept else kept + [e]
  }

  function Drop(es: seq<Edit>): (dropped: seq<Edit>)
  {
    if es == [] then []
    else
      var dropped, e := Drop(es[..|es| - 1]), es[|es| - 1];
      if Clashes(e, Keep(es[..|es| - 1])) then dropped + [e] else dropped
  }

  function Resolved(edits: seq<Edit>): seq<Edit> {
    Keep(Sort(ResolveOrder, edits))
  }

  function Dropped(edits: seq<Edit>): seq<Edit> {
    Drop(Sort(ResolveOrder, edits))
  }

  lemma {:induction false} KeepIsEmpty(es: seq<Edit>)
    ensures Keep(es) == [] <==> es == []
  {
    if |es| > 1 {
      KeepIsEmpty(es[..|es| - 1]);
    } else if |es| == 1 {
      assert es[..0] == [];
    }
  }

  lemma ResolvedIsEmpty(edits: seq<Edit>)
    ensures Resolved(edits) == [] <==> edits == []
  {
    OrdersArePreorders();
    SortIsSorted(ResolveOrder, edits);
    KeepIsEmpty(Sort(ResolveOrder, edits));
  }

  lemma KeptOrDropped(edits: seq<Edit>)
    ensures multiset(Resolved(edits)) + multiset(Dropped(edits)) == multiset(edits)
  {
    OrdersArePreorders();
    SortIsSorted(ResolveOrder, edits);
    DropIsJustified(Sort(ResolveOrder, edits));
  }

  lemma StillClashes(e: Edit, kept: seq<Edit>, more: Edit)
    requires Clashes(e, kept)
    ensures Clashes(e, kept + [more])
  {
    var k :| 0 <= k < |kept| && Overlaps(e, kept[k]);
    assert Overlaps(e, (kept + [more])[k]);
  }

  /** Each edit is either kept or dropped, and a dropped one overlaps a kept one. */
  lemma {:induction false} DropIsJustified(es: seq<Edit>)
    ensures multiset(Keep(es)) + multiset(Drop(es)) == multiset(es)
    ensures forall i :: 0 <= i < |Drop(es)| ==> Clashes(Drop(es)[i], Keep(es))
  {
    hide Clashes;
    if es != [] {
      var front, e := es[..|es| - 1], es[|es| - 1];
      assert es == front + [e];
      DropIsJustified(front);
      forall i | 0 <= i < |Drop(front)|
        ensures Clashes(Drop(front)[i], Keep(front) + [e])
      {
        StillClashes(Drop(front)[i], Keep(front), e);
      }
    }
  }

  /** `k` begins no later than `e`, reaches past its start, and is no shorter if they begin together. */
  ghost predicate Covers(k: Edit, e: Edit) {
    k.start <= e.start < k.end && (k.start == e.start ==> e.end <= k.end)
  }

  ghost predicate CoveredIn(e: Edit, kept: seq<Edit>) {
    exists i :: 0 <= i < |kept| && Covers(kept[i], e)
  }

  lemma {:induction false} DropIsCovered(es: seq<Edit>, n: nat)
    requires Fits(n, es) && Sorted(ResolveOrder, es)
    ensures forall i :: 0 <= i < |Drop(es)| ==> CoveredIn(Drop(es)[i], Keep(es))
  {
    if es != [] {
      var front, e := es[..|es| - 1], es[|es| - 1];
      DropIsCovered(front, n);
      KeepIsSorted(es);
      KeepIsSound(front, n);
      hide CoveredIn, Keep, Drop, Sorted;
      KeepDropStep(es);
      if Clashes(e, Keep(front)) {
        LastIsCovered(es, n);
      }
      forall i | 0 <= i < |Drop(es)|
        ensures CoveredIn(Drop(es)[i], Keep(es))
      {
        if i < |Drop(front)| {
          StaysCovered(Drop(front)[i], Keep(front), e);
        }
      }
    }
  }

  lemma KeepDropStep(es: seq<Edit>)
    requires es != []
    ensures var front, e := es[..|es| - 1], es[|es| - 1];
      && Keep(es) == (if Clashes(e, Keep(front)) then Keep(front) else Keep(front) + [e])
      && Drop(es) == (if Clashes(e, Keep(front)) then Drop(front) + [e] else Drop(front))
  {
  }

  lemma StaysCovered(e: Edit, kept: seq<Edit>, more: Edit)
    requires CoveredIn(e, kept)
    ensures CoveredIn(e, kept + [more])
  {
    var i :| 0 <= i < |kept| && Covers(kept[i], e);
    assert Covers((kept + [more])[i], e);
  }

  lemma LastIsCovered(es: seq<Edit>, n: nat)
    requires es != [] && Fits(n, es) && Sorted(ResolveOrder, es)
    requires Clashes(es[|es| - 1], Keep(es[..|es| - 1]))
    ensures CoveredIn(es[|es| - 1], Keep(es[..|es| - 1]))
  {
    var front, e := es[..|es| - 1], es[|es| - 1];
    KeepIsSorted(es);
    KeepDropStep(es);
    KeepIsSound(front, n);
    hide Keep, Sorted;
    var k :| 0 <= k < |Keep(front)| && Overlaps(e, Keep(front)[k]);
    assert ResolveOrder(Keep(front)[k], e);
    assert Covers(Keep(front)[k], e);
  }

  /** A dropped edit gives way to a kept one that begins no later and reaches past its start; of two
      that begin together the longer is kept. */
  lemma DroppedGivesWay(edits: seq<Edit>, n: nat, e: Edit)
    requires Fits(n, edits) && e in Dropped(edits)
    ensures CoveredIn(e, Resolved(edits))
  {
    OrdersArePreorders();
    SortIsSorted(ResolveOrder, edits);
    FitsPermuted(n, edits, Sort(ResolveOrder, edits));
    DropIsCovered(Sort(ResolveOrder, edits), n);
    hide CoveredIn, Keep, Drop;
    var i :| 0 <= i < |Dropped(edits)| && Dropped(edits)[i] == e;
  }

  lemma {:induction false} KeepIsSound(es: seq<Edit>, n: nat)
    requires Fits(n, es)
    ensures Disjoint(Keep(es)) && Fits(n, Keep(es))
  {
    if es != [] {
      KeepIsSound(es[..|es| - 1], n);
    }
  }

  lemma {:induction false} KeepIsSorted(es: seq<Edit>)
    requires Sorted(ResolveOrder, es)
    ensures Sorted(ResolveOrder, Keep(es))
    ensures es != [] ==> forall i :: 0 <= i < |Keep(es)| ==> ResolveOrder(Keep(es)[i], es[|es| - 1])
  {
    if es != [] {
      var front, e := es[..|es| - 1], es[|es| - 1];
      KeepIsSorted(front);
      if front != [] {
        assert ResolveOrder(front[|front| - 1], e);
      }
    }
  }

  lemma {:induction false} KeepFilter(c: Edit -> bool, es: seq<Edit>)
    requires forall i :: 0 <= i < |Drop(es)| ==> !c(Drop(es)[i])
    ensures Filter(c, Keep(es)) == Filter(c, es)
  {
    if es != [] {
      var front, e := es[..|es| - 1], es[|es| - 1];
      assert forall i :: 0 <= i < |Drop(front)| ==> Drop(es)[i] == Drop(front)[i];
      assert Clashes(e, Keep(front)) ==> Drop(es)[|Drop(front)|] == e;
      KeepFilter(c, front);
      FilterSnoc(c, Keep(front), e);
    }
  }

  /** The loop of `_resolve_overlaps`; `skips` collects the edits it drops. */
  method ResolveOverlaps(edits: seq<Edit>) returns (out: seq<Edit>, skips: seq<Edit>)
    ensures out == Resolved(edits) && skips == Dropped(edits)
    ensures multiset(out) + multiset(skips) == multiset(edits)
    ensures forall i :: 0 <= i < |skips| ==> Clashes(skips[i], out)
    ensures forall n, i :: Fits(n, edits) && 0 <= i < |skips| ==> CoveredIn(skips[i], out)
  {
    var sorted := Sort(ResolveOrder, edits);
    out, skips := [], [];
    for i := 0 to |sorted|
      invariant out == Keep(sorted[..i])
      invariant skips == Drop(sorted[..i])
    {
      var e := sorted[i];
      assert sorted[..i + 1][..i] == sorted[..i];
      if Clashes(e, out) {
        skips := skips + [e];
      } else {
        out := out + [e];
      }
    }
    assert sorted[..|sorted|] == sorted;
    OrdersArePreorders();
    SortIsSorted(ResolveOrder, edits);
    DropIsJustified(sorted);
    forall n, i | Fits(n, edits) && 0 <= i < |skips|
      ensures CoveredIn(skips[i], out)
    {
      DroppedGivesWay(edits, n, skips[i]);
    }
  }

  // ---------------------------------------------------------------------
  // Splicing.
  // ---------------------------------------------------------------------

  /** The order in which the results of the edits stand in the new file. */
  function LeftToRight(kept: seq<Edit>): seq<Edit> {
    Reverse(Sort(RightToLeft, kept))
  }

  /** `a` lies wholly to the right of `b`. */
  ghost predicate RightOf(a: Edit, b: Edit) {
    b.end <= a.start
  }

  /** `y` was kept before `x`. */
  ghost predicate KeptBefore(y: Edit, x: Edit) {
    ResolveOrder(y, x) && !Overlaps(x, y) && y.start <= y.end && x.start <= x.end
  }

  lemma KeptBeforeIsEnough(y: Edit, x: Edit)
    requires KeptBefore(y, x)
    ensures RightToLeft(y, x) ==> RightOf(y, x)
    ensures !RightToLeft(y, x) ==> RightOf(x, y)
  {
  }

  lemma {:induction false} InsertRightToLeft(d: seq<Edit>, x: Edit)
    requires Sorted(RightOf, d)
    requires forall i :: 0 <= i < |d| ==> KeptBefore(d[i], x)
    requires forall i, j :: 0 <= i < j < |d| ==> RightToLeft(d[i], d[j])
    ensures Sorted(RightOf, Insert(RightToLeft, d, x))
  {
    hide KeptBefore;
    if d != [] {
      var front, last := d[..|d| - 1], d[|d| - 1];
      if RightToLeft(last, x) {
        forall i | 0 <= i < |d|
          ensures RightOf(d[i], x)
        {
          KeptBeforeIsEnough(d[i], x);
        }
      } else {
        KeptBeforeIsEnough(last, x);
        InsertRightToLeft(front, x);
        var r := Insert(RightToLeft, front, x);
        InsertMembers(front, x);
        forall i | 0 <= i < |r|
          ensures RightOf(r[i], last)
        {
          assert r[i] in r;
          assert r[i] in front || r[i] == x;
        }
      }
    }
  }

  lemma {:induction false} InsertMembers(d: seq<Edit>, x: Edit)
    ensures forall e :: e in Insert(RightToLeft, d, x) ==> e in d || e == x
  {
    if d != [] && !RightToLeft(d[|d| - 1], x) {
      InsertMembers(d[..|d| - 1], x);
    }
  }

  lemma {:induction false} SortRightToLeft(kept: seq<Edit>)
    requires forall i, j :: 0 <= i < j < |kept| ==> KeptBefore(kept[i], kept[j])
    ensures Sorted(RightOf, Sort(RightToLeft, kept))
  {
    hide KeptBefore;
    if kept != [] {
      var front, x := kept[..|kept| - 1], kept[|kept| - 1];
      SortRightToLeft(front);
      OrdersArePreorders();
      SortIsSorted(RightToLeft, front);
      var d := Sort(RightToLeft, front);
      forall i | 0 <= i < |d|
        ensures KeptBefore(d[i], x)
      {
        assert d[i] in multiset(d) && d[i] in multiset(front);
        var j :| 0 <= j < |front| && front[j] == d[i];
        assert KeptBefore(kept[j], x);
      }
      InsertRightToLeft(d, x);
    }
  }

  lemma {:induction false} ReverseIsOrdered(n: nat, pos: nat, d: seq<Edit>)
    requires Sorted(RightOf, d) && Fits(n, d) && pos <= n
    requires forall i :: 0 <= i < |d| ==> pos <= d[i].start
    ensures Ordered(n, pos, Reverse(d))
    decreases d
  {
    if d != [] {
      var front, last := d[..|d| - 1], d[|d| - 1];
      assert forall i :: 0 <= i < |front| ==> RightOf(d[i], last);
      ReverseIsOrdered(n, last.end, front);
      assert Reverse(d)[1..] == Reverse(front);
    }
  }

  lemma {:induction false} ReverseMultiset(d: seq<Edit>)
    ensures multiset(Reverse(d)) == multiset(d)
  {
    if d != [] {
      ReverseMultiset(d[..|d| - 1]);
      assert d == d[..|d| - 1] + [d[|d| - 1]];
    }
  }

  /** What resolution guarantees about the edits it keeps, for any edits that fit the file:
      they can all be applied at once. */
  lemma ResolvedIsOrdered(n: nat, edits: seq<Edit>)
    requires Fits(n, edits)
    ensures var kept := Resolved(edits);
            && Disjoint(kept) && Fits(n, kept)
            && Ordered(n, 0, LeftToRight(kept)) && multiset(LeftToRight(kept)) == multiset(kept)
  {
    var sorted, kept := Sort(ResolveOrder, edits), Resolved(edits);
    OrdersArePreorders();
    SortIsSorted(ResolveOrder, edits);
    FitsPermuted(n, edits, sorted);
    KeepIsSound(sorted, n);
    KeepIsSorted(sorted);
    SortRightToLeft(kept);
    SortIsSorted(RightToLeft, kept);
    FitsPermuted(n, kept, Sort(RightToLeft, kept));
    ReverseIsOrdered(n, 0, Sort(RightToLeft, kept));
    ReverseMultiset(Sort(RightToLeft, kept));
  }

  lemma FitsPermuted(n: nat, xs: seq<Edit>, ys: seq<Edit>)
    requires Fits(n, xs) && multiset(xs) == multiset(ys)
    ensures Fits(n, ys)
  {
    forall i | 0 <= i < |ys|
      ensures ys[i].start <= ys[i].end <= n
    {
      assert ys[i] in multiset(ys) && ys[i] in multiset(xs);
    }
  }

  lemma SubstituteFrom(src: Source, pos: nat, mid: nat, es: seq<Edit>)
    requires Ordered(|src|, mid, es) && pos <= mid <= |src|
    ensures Ordered(|src|, pos, es)
    ensures Substitute(src, pos, es) == src[pos..mid] + Substitute(src, mid, es)
  {
    if es != [] {
      var a, b := src[pos..mid], src[mid..es[0].start];
      var text, rest := es[0].text, Substitute(src, es[0].end, es[1..]);
      assert src[pos..es[0].start] == a + b;
      assert a + b + text + rest == a + (b + text + rest);
    } else {
      assert src[pos..] == src[pos..mid] + src[mid..];
    }
  }

  lemma {:induction false} OrderedSuffix(n: nat, d: seq<Edit>, i: nat)
    requires Ordered(n, 0, Reverse(d)) && i <= |d|
    ensures Ordered(n, 0, Reverse(d[..i]))
    decreases |d| - i
  {
    if i < |d| {
      OrderedSuffix(n, d, i + 1);
      assert d[..i + 1][..i] == d[..i];
      assert Reverse(d[..i + 1]) == [d[i]] + Reverse(d[..i]);
      assert Reverse(d[..i + 1])[1..] == Reverse(d[..i]);
    } else {
      assert d[..i] == d;
    }
  }

  lemma OrderedBounds(n: nat, pos: nat, es: seq<Edit>)
    requires Ordered(n, pos, es)
    ensures pos <= n
  {
  }

  /** The loop of `_apply`: one splice after another, from the right, gives the
      simultaneous substitution. */
  method Apply(src: Source, edits: seq<Edit>) returns (out: Source)
    requires Ordered(|src|, 0, LeftToRight(edits))
    ensures out == Substitute(src, 0, LeftToRight(edits))
  {
    var sorted := Sort(RightToLeft, edits);
    assert sorted[..|sorted|] == sorted;
    out := src;
    for i := 0 to |sorted|
      invariant Ordered(|src|, 0, Reverse(sorted[..i]))
      invariant out == Substitute(src, 0, Reverse(sorted[..i]))
    {
      var e := sorted[i];
      ghost var after := Reverse(sorted[..i]);
      assert sorted[..i + 1][..i] == sorted[..i];
      assert Reverse(sorted[..i + 1]) == [e] + after;
      OrderedSuffix(|src|, sorted, i + 1);
      assert Reverse(sorted[..i + 1])[1..] == after;
      OrderedBounds(|src|, e.end, after);
      SubstituteFrom(src, 0, e.end, after);
      assert out[..e.start] == src[0..e.start];
      assert out[e.end..] == Substitute(src, e.end, after);
      out := out[..e.start] + e.text + out[e.end..];
    }
  }

  // ---------------------------------------------------------------------
  // Edits of one span.
  // ---------------------------------------------------------------------

  predicate HasSpan(start: nat, end: nat, e: Edit) {
    e.start == start && e.end == end
  }

  lemma {:induction false} FilterMembers(c: Edit -> bool, es: seq<Edit>)
    ensures forall e :: e in Filter(c, es) <==> e in es && c(e)
  {
    if es != [] {
      FilterMembers(c, es[..|es| - 1]);
      assert es == es[..|es| - 1] + [es[|es| - 1]];
    }
  }

  lemma {:induction false} KeepFirst(es: seq<Edit>, start: nat, end: nat)
    requires start < end
    ensures var c := e => HasSpan(start, end, e);
      Filter(c, Keep(es)) == [] || (Filter(c, es) != [] && Filter(c, Keep(es)) == [Filter(c, es)[0]])
  {
    var c := e => HasSpan(start, end, e);
    if es != [] {
      var front, e := es[..|es| - 1], es[|es| - 1];
      KeepFirst(front, start, end);
      KeepDropStep(es);
      FilterSnoc(c, Keep(front), e);
      if c(e) && Filter(c, front) != [] {
        EqualSpanClashes(front, start, end, e);
      }
    }
  }

  lemma EqualSpanClashes(es: seq<Edit>, start: nat, end: nat, e: Edit)
    requires start < end && HasSpan(start, end, e) && Filter(x => HasSpan(start, end, x), es) != []
    ensures Clashes(e, Keep(es))
  {
    var c := x => HasSpan(start, end, x);
    FilterMembers(c, es);
    var f := Filter(c, es)[0];
    assert f in es && c(f);
    DropIsJustified(es);
    assert f in multiset(es);
    if f in Keep(es) {
      var i :| 0 <= i < |Keep(es)| && Keep(es)[i] == f;
      assert Overlaps(e, Keep(es)[i]);
    } else {
      assert f in multiset(Drop(es));
      var i :| 0 <= i < |Drop(es)| && Drop(es)[i] == f;
      var k :| 0 <= k < |Keep(es)| && Overlaps(f, Keep(es)[k]);
      assert Overlaps(e, Keep(es)[k]);
    }
  }

  /** Of several edits of one span at most one is kept: the first planned. */
  lemma FirstOfOneSpan(edits: seq<Edit>, start: nat, end: nat)
    requires start < end
    ensures var c := e => HasSpan(start, end, e);
      || Filter(c, Resolved(edits)) == []
      || (Filter(c, edits) != [] && Filter(c, Resolved(edits)) == [Filter(c, edits)[0]])
  {
    var c := e => HasSpan(start, end, e);
    OrdersArePreorders();
    SortIsStable(ResolveOrder, c, edits);
    KeepFirst(Sort(ResolveOrder, edits), start, end);
  }

  // ---------------------------------------------------------------------
  // Same-offset insertions.
  // ---------------------------------------------------------------------

  /** Insertions at offset `o`. */
  predicate InsertsAt(o: nat, e: Edit) {
    e.start == o == e.end
  }

  lemma {:induction false} FilterReverse(c: Edit -> bool, es: seq<Edit>)
    ensures Filter(c, Reverse(es)) == Reverse(Filter(c, es))
  {
    if es != [] {
      var front, last := es[..|es| - 1], es[|es| - 1];
      FilterReverse(c, front);
      FilterConcat(c, [last], Reverse(front));
      FilterSnoc(c, [], last);
      assert [] + [last] == [last];
      var f := Filter(c, front);
      if c(last) {
        assert Filter(c, es) == f + [last];
        assert (f + [last])[..|f|] == f;
        assert Reverse(f + [last]) == [last] + Reverse(f);
      } else {
        assert Filter(c, es) == f;
        assert Filter(c, [last]) == [];
      }
    }
  }

  lemma {:induction false} FilterConcat(c: Edit -> bool, xs: seq<Edit>, ys: seq<Edit>)
    ensures Filter(c, xs + ys) == Filter(c, xs) + Filter(c, ys)
  {
    if ys == [] {
      assert xs + ys == xs;
    } else {
      var front, last := ys[..|ys| - 1], ys[|ys| - 1];
      FilterConcat(c, xs, front);
      assert xs + ys == (xs + front) + [last];
      FilterSnoc(c, xs + front, last);
    }
  }

  /** Insertions at an offset that no kept span strictly contains all survive, and
      stand in the reverse of the order in which they were planned. */
  lemma InsertionsAtOneOffset(edits: seq<Edit>, n: nat, o: nat)
    requires Fits(n, edits)
    requires forall i :: 0 <= i < |Resolved(edits)| ==> !(Resolved(edits)[i].start < o < Resolved(edits)[i].end)
    ensures Filter(e => InsertsAt(o, e), LeftToRight(Resolved(edits))) == Reverse(Filter(e => InsertsAt(o, e), edits))
  {
    var c := e => InsertsAt(o, e);
    var sorted, kept := Sort(ResolveOrder, edits), Resolved(edits);
    OrdersArePreorders();
    SortIsStable(ResolveOrder, c, edits);
    DropIsJustified(sorted);
    KeepFilter(c, sorted);
    SortIsStable(RightToLeft, c, kept);
    FilterReverse(c, Sort(RightToLeft, kept));
  }

  /** The new file that a set of planned edits stands for. */
  ghost function Spliced(src: Source, edits: seq<Edit>): Source
    requires Fits(|src|, edits)
  {
    ResolvedIsOrdered(|src|, edits);
    Substitute(src, 0, LeftToRight(Resolved(edits)))
  }

  /** Resolving and then splicing, for any edits that fit the file. */
  method ResolveAndApply(src: Source, edits: seq<Edit>) returns (out: Source)
    requires Fits(|src|, edits)
    ensures out == Spliced(src, edits)
    ensures |out| == |src| + Growth(LeftToRight(Resolved(edits)))
  {
    ResolvedIsOrdered(|src|, edits);
    var kept, skips := ResolveOverlaps(edits);
    out := Apply(src, kept);
    SubstituteLength(src, 0, LeftToRight(kept));
  }
}
