/** The order statistics that decide benchmark verdicts, over exact reals. */
module BenchStats {
  import opened Options
  import opened Sorting

  predicate AtMost(a: real, b: real) { a <= b }

  lemma AtMostIsTotal()
    ensures TotalPreorder(AtMost) && Antisymmetric(AtMost)
  {
  }

  ghost predicate Ascending(xs: seq<real>) {
    forall i, j :: 0 <= i <= j < |xs| ==> xs[i] <= xs[j]
  }

  /** The samples in order. */
  function InOrder(xs: seq<real>): (s: seq<real>)
    ensures |s| == |xs| && multiset(s) == multiset(xs) && Ascending(s)
  {
    AtMostIsTotal();
    SortIsSorted(AtMost, xs);
    Sort(AtMost, xs)
  }

  ghost predicate Within(xs: seq<real>, lo: real, hi: real) {
    forall i :: 0 <= i < |xs| ==> lo <= xs[i] <= hi
  }

  lemma WithinInOrder(xs: seq<real>, lo: real, hi: real)
    requires Within(xs, lo, hi)
    ensures Within(InOrder(xs), lo, hi)
  {
    var s := InOrder(xs);
    forall i | 0 <= i < |s|
      ensures lo <= s[i] <= hi
    {
      assert s[i] in multiset(xs);
    }
  }

  /** A value in another unit and from another origin. */
  function Rescale(x: real, a: real, b: real): real {
    a * x + b
  }

  function Scaled(xs: seq<real>, a: real, b: real): (r: seq<real>)
    ensures |r| == |xs| && forall i :: 0 <= i < |xs| ==> r[i] == Rescale(xs[i], a, b)
  {
    seq(|xs|, i requires 0 <= i < |xs| => Rescale(xs[i], a, b))
  }

  lemma ScaledSnoc(xs: seq<real>, x: real, a: real, b: real)
    ensures Scaled(xs + [x], a, b) == Scaled(xs, a, b) + [Rescale(x, a, b)]
  {
    hide Rescale;
  }

  // ---------------------------------------------------------------------
  // Quantiles.
  // ---------------------------------------------------------------------

  function Ceil(x: real): int {
    if x.Floor as real == x then x.Floor else x.Floor + 1
  }

  lemma NonNegative(a: real, b: real)
    requires a >= 0.0 && b >= 0.0
    ensures a * b >= 0.0
  {
  }

  lemma Positive(a: real, b: real)
    requires a > 0.0 && b > 0.0
    ensures a * b > 0.0
  {
  }

  lemma Divide(sum: real, n: real, lo: real, hi: real)
    requires n > 0.0 && n * lo <= sum <= n * hi
    ensures lo <= sum / n <= hi
  {
    var v := sum / n;
    assert n * v == sum;
    DivideOne(n, lo, v);
    DivideOne(n, v, hi);
  }

  lemma DivideOne(n: real, x: real, y: real)
    requires n > 0.0 && n * x <= n * y
    ensures x <= y
  {
  }

  function Pos(n: nat, q: real): real
    requires n > 0
  {
    q * (n - 1) as real
  }

  lemma PosInRange(n: nat, q: real)
    requires n > 0 && 0.0 <= q <= 1.0
    ensures 0.0 <= Pos(n, q) <= (n - 1) as real
    ensures 0 <= Pos(n, q).Floor <= Ceil(Pos(n, q)) <= n - 1
  {
    var m := (n - 1) as real;
    NonNegative(q, m);
    NonNegative(1.0 - q, m);
  }

  /** The interpolated value of a non-empty list at fraction `q`. */
  function At(xs: seq<real>, q: real): real
    requires xs != [] && 0.0 <= q <= 1.0
  {
    if |xs| == 1 then xs[0]
    else
      var pos := Pos(|xs|, q);
      PosInRange(|xs|, q);
      var lo, hi := pos.Floor, Ceil(pos);
      if lo == hi then xs[lo]
      else
        var frac := pos - lo as real;
        xs[lo] * (1.0 - frac) + xs[hi] * frac
  }

  function Quantile(xs: seq<real>, q: real): Option<real>
    requires 0.0 <= q <= 1.0
  {
    if xs == [] then None else Some(At(xs, q))
  }

  function Median(xs: seq<real>): Option<real> {
    Quantile(InOrder(xs), 0.5)
  }

  /** The graph through the points (k, xs[k]): on the segment from `k` to `k + 1`. */
  function OnSegment(xs: seq<real>, k: nat, pos: real): real
    requires k + 1 < |xs|
  {
    xs[k] + (pos - k as real) * (xs[k + 1] - xs[k])
  }

  /** The quantile is the piecewise linear graph through the points, read at `q * (n - 1)`. */
  lemma QuantileInterpolates(xs: seq<real>, q: real, k: nat)
    requires 0.0 <= q <= 1.0 && k + 1 < |xs| && k as real <= Pos(|xs|, q) <= (k + 1) as real
    ensures At(xs, q) == OnSegment(xs, k, Pos(|xs|, q))
  {
    var pos := Pos(|xs|, q);
    PosInRange(|xs|, q);
    if pos == (k + 1) as real {
      assert pos.Floor == k + 1;
    } else {
      assert pos.Floor == k;
    }
  }

  /** At the fractions k / (n - 1) it is the k-th smallest sample itself. */
  lemma QuantileHitsTheSamples(xs: seq<real>, k: nat)
    requires k < |xs| && |xs| > 1
    ensures 0.0 <= k as real / (|xs| - 1) as real <= 1.0
    ensures At(xs, k as real / (|xs| - 1) as real) == xs[k]
  {
    var m := (|xs| - 1) as real;
    Divide(k as real, m, 0.0, 1.0);
    assert k as real / m * m == k as real;
    assert Pos(|xs|, k as real / m) == k as real;
  }

  lemma SegmentBetween(xs: seq<real>, k: nat, pos: real)
    requires Ascending(xs) && k + 1 < |xs| && k as real <= pos <= (k + 1) as real
    ensures xs[k] <= OnSegment(xs, k, pos) <= xs[k + 1]
  {
    var t, d := pos - k as real, xs[k + 1] - xs[k];
    NonNegative(t, d);
    NonNegative(1.0 - t, d);
  }

  /** The segment that a position falls on. */
  function SegmentOf(n: nat, q: real): (k: nat)
    requires n > 1 && 0.0 <= q <= 1.0
    ensures k + 1 < n && k as real <= Pos(n, q) <= (k + 1) as real
    ensures k == if Pos(n, q).Floor == n - 1 then n - 2 else Pos(n, q).Floor
  {
    PosInRange(n, q);
    if Pos(n, q).Floor == n - 1 then n - 2 else Pos(n, q).Floor
  }

  /** It lies between the two samples around its position, so between the least and the greatest. */
  lemma QuantileBetween(xs: seq<real>, q: real)
    requires Ascending(xs) && xs != [] && 0.0 <= q <= 1.0
    ensures 0 <= Pos(|xs|, q).Floor <= Ceil(Pos(|xs|, q)) < |xs|
    ensures xs[Pos(|xs|, q).Floor] <= At(xs, q) <= xs[Ceil(Pos(|xs|, q))]
    ensures xs[0] <= At(xs, q) <= xs[|xs| - 1]
  {
    PosInRange(|xs|, q);
    var lo := Pos(|xs|, q).Floor;
    if |xs| > 1 && lo < |xs| - 1 {
      QuantileInterpolates(xs, q, lo);
      SegmentBetween(xs, lo, Pos(|xs|, q));
    }
  }

  lemma SegmentMonotone(xs: seq<real>, k: nat, p: real, q: real)
    requires Ascending(xs) && k + 1 < |xs| && p <= q
    ensures OnSegment(xs, k, p) <= OnSegment(xs, k, q)
  {
    NonNegative(q - p, xs[k + 1] - xs[k]);
  }

  lemma QuantileMonotone(xs: seq<real>, p: real, q: real)
    requires Ascending(xs) && xs != [] && 0.0 <= p <= q <= 1.0
    ensures At(xs, p) <= At(xs, q)
  {
    if |xs| > 1 {
      var j, k := SegmentOf(|xs|, p), SegmentOf(|xs|, q);
      var pp, pq := Pos(|xs|, p), Pos(|xs|, q);
      NonNegative(q - p, (|xs| - 1) as real);
      QuantileInterpolates(xs, p, j);
      QuantileInterpolates(xs, q, k);
      if j == k {
        SegmentMonotone(xs, k, pp, pq);
      } else {
        assert j < k;
        SegmentBetween(xs, j, pp);
        SegmentBetween(xs, k, pq);
      }
    }
  }

  /** A change of unit and origin changes the quantile the same way. */
  lemma QuantileScales(xs: seq<real>, q: real, a: real, b: real)
    requires xs != [] && 0.0 <= q <= 1.0
    ensures At(Scaled(xs, a, b), q) == Rescale(At(xs, q), a, b)
  {
    if |xs| > 1 {
      var k := SegmentOf(|xs|, q);
      QuantileInterpolates(xs, q, k);
      QuantileInterpolates(Scaled(xs, a, b), q, k);
      SegmentScales(a, b, xs[k], xs[k + 1], Pos(|xs|, q) - k as real);
    }
  }

  lemma SegmentScales(a: real, b: real, x: real, y: real, t: real)
    ensures (a * x + b) + t * ((a * y + b) - (a * x + b)) == a * (x + t * (y - x)) + b
  {
    assert (a * y + b) - (a * x + b) == a * (y - x);
    assert t * (a * (y - x)) == a * (t * (y - x));
  }

  // ---------------------------------------------------------------------
  // Order does not matter; how many samples lie on each side.
  // ---------------------------------------------------------------------

  function Tally(c: real -> bool, xs: seq<real>): nat {
    |Filter(c, xs)|
  }

  lemma TallySnoc(c: real -> bool, xs: seq<real>, x: real)
    ensures Tally(c, xs + [x]) == Tally(c, xs) + if c(x) then 1 else 0
  {
    FilterSnoc(c, xs, x);
  }

  lemma {:induction false} TallyInsert(c: real -> bool, xs: seq<real>, x: real)
    ensures Tally(c, Insert(AtMost, xs, x)) == Tally(c, xs + [x])
  {
    TallySnoc(c, xs, x);
    if xs != [] && !AtMost(xs[|xs| - 1], x) {
      var front, last := xs[..|xs| - 1], xs[|xs| - 1];
      assert xs == front + [last];
      TallyInsert(c, front, x);
      TallySnoc(c, Insert(AtMost, front, x), last);
      TallySnoc(c, front, x);
      TallySnoc(c, front, last);
    }
  }

  lemma {:induction false} TallyInOrder(c: real -> bool, xs: seq<real>)
    ensures Tally(c, InOrder(xs)) == Tally(c, xs)
    decreases |xs|
  {
    if xs != [] {
      var front, last := xs[..|xs| - 1], xs[|xs| - 1];
      assert xs == front + [last];
      TallyInOrder(c, front);
      TallyInsert(c, InOrder(front), last);
      TallySnoc(c, InOrder(front), last);
      TallySnoc(c, front, last);
    }
  }

  lemma SameOrder(xs: seq<real>, ys: seq<real>)
    requires multiset(xs) == multiset(ys)
    ensures InOrder(xs) == InOrder(ys)
  {
    AtMostIsTotal();
    SortedIsUnique(AtMost, InOrder(xs), InOrder(ys));
  }

  /** The median does not depend on the order of the samples. */
  lemma MedianOfPermutation(xs: seq<real>, ys: seq<real>)
    requires multiset(xs) == multiset(ys)
    ensures Median(xs) == Median(ys)
  {
    SameOrder(xs, ys);
  }

  lemma {:induction false} TallyBounded(c: real -> bool, xs: seq<real>, lo: int, hi: int)
    requires forall i :: 0 <= i < |xs| && c(xs[i]) ==> lo <= i < hi
    requires lo <= hi
    ensures Tally(c, xs) <= hi - lo
    decreases |xs|
  {
    if xs != [] {
      var front, last := xs[..|xs| - 1], xs[|xs| - 1];
      if c(last) {
        assert lo <= |xs| - 1 < hi;
        TallyBounded(c, front, lo, |xs| - 1);
      } else {
        TallyBounded(c, front, lo, hi);
      }
    }
  }

  function Below(v: real): real -> bool {
    x => x < v
  }

  function Above(v: real): real -> bool {
    x => x > v
  }

  lemma TalliesAround(s: seq<real>, v: real, lo: nat, hi: nat)
    requires Ascending(s) && lo <= hi < |s| && s[lo] <= v <= s[hi]
    ensures Tally(Below(v), s) <= hi && Tally(Above(v), s) <= |s| - 1 - lo
  {
    hide Tally;
    TallyBounded(Below(v), s, 0, hi);
    TallyBounded(Above(v), s, lo + 1, |s|);
  }

  /** At most `q * (n - 1)`, rounded up, samples lie below the quantile, and at most
      `(1 - q) * (n - 1)`, rounded up, above it. */
  lemma QuantileRank(xs: seq<real>, q: real, v: real)
    requires xs != [] && 0.0 <= q <= 1.0 && Quantile(InOrder(xs), q) == Some(v)
    ensures Tally(Below(v), xs) <= Ceil(Pos(|xs|, q))
    ensures Tally(Above(v), xs) <= |xs| - 1 - Pos(|xs|, q).Floor
  {
    hide At, Tally, Pos, Below, Above, Ceil, Ascending;
    var s := InOrder(xs);
    QuantileBetween(s, q);
    TallyInOrder(Below(v), xs);
    TallyInOrder(Above(v), xs);
    TalliesAround(s, v, Pos(|xs|, q).Floor, Ceil(Pos(|xs|, q)));
  }

  /** The median splits the samples: no more than half lie strictly on either side. */
  lemma MedianSplits(xs: seq<real>, v: real)
    requires Median(xs) == Some(v)
    ensures 2 * Tally(Below(v), xs) <= |xs| && 2 * Tally(Above(v), xs) <= |xs|
  {
    QuantileRank(xs, 0.5, v);
    assert 2.0 * Pos(|xs|, 0.5) == (|xs| - 1) as real;
  }

  lemma ScaleKeepsOrder(a: real, b: real, x: real, y: real)
    requires a > 0.0
    ensures x <= y <==> Rescale(x, a, b) <= Rescale(y, a, b)
  {
    if x > y {
      ScaleGrows(a, b, y, x - y);
    } else if x < y {
      ScaleGrows(a, b, x, y - x);
    }
  }

  lemma ScaleGrows(a: real, b: real, x: real, e: real)
    requires a > 0.0 && e > 0.0
    ensures Rescale(x + e, a, b) > Rescale(x, a, b)
  {
    Positive(a, e);
    assert a * (x + e) == a * x + a * e;
  }

  lemma {:induction false} InsertScales(xs: seq<real>, x: real, a: real, b: real)
    requires a > 0.0
    ensures Insert(AtMost, Scaled(xs, a, b), Rescale(x, a, b)) == Scaled(Insert(AtMost, xs, x), a, b)
    decreases |xs|
  {
    hide Rescale;
    ScaledSnoc(xs, x, a, b);
    if xs != [] {
      var front, last := xs[..|xs| - 1], xs[|xs| - 1];
      assert xs == front + [last];
      ScaledSnoc(front, last, a, b);
      ScaleKeepsOrder(a, b, last, x);
      var r := Scaled(xs, a, b);
      assert r[..|r| - 1] == Scaled(front, a, b);
      InsertScales(front, x, a, b);
      ScaledSnoc(Insert(AtMost, front, x), last, a, b);
    }
  }

  lemma {:induction false} OrderScales(xs: seq<real>, a: real, b: real)
    requires a > 0.0
    ensures InOrder(Scaled(xs, a, b)) == Scaled(InOrder(xs), a, b)
    decreases |xs|
  {
    hide Rescale, Insert, Ascending;
    if xs != [] {
      var front, last := xs[..|xs| - 1], xs[|xs| - 1];
      assert xs == front + [last];
      ScaledSnoc(front, last, a, b);
      var r := Scaled(xs, a, b);
      assert r[..|r| - 1] == Scaled(front, a, b);
      OrderScales(front, a, b);
      InsertScales(InOrder(front), last, a, b);
    }
  }

  lemma MedianScales(xs: seq<real>, v: real, a: real, b: real)
    requires Median(xs) == Some(v) && a > 0.0
    ensures Median(Scaled(xs, a, b)) == Some(Rescale(v, a, b))
  {
    hide At, Rescale, InOrder;
    OrderScales(xs, a, b);
    QuantileScales(InOrder(xs), 0.5, a, b);
  }

  // ---------------------------------------------------------------------
  // The bootstrap interval.
  // ---------------------------------------------------------------------

  function Sum(xs: seq<real>): real {
    if xs == [] then 0.0 else Sum(xs[..|xs| - 1]) + xs[|xs| - 1]
  }

  function Mean(xs: seq<real>): real
    requires xs != []
  {
    Sum(xs) / |xs| as real
  }

  /** The two statistics that the report gives an interval for. */
  datatype Stat = TheMedian | TheMean

  function Apply(stat: Stat, xs: seq<real>): real
    requires xs != []
  {
    if stat == TheMedian then At(InOrder(xs), 0.5) else Mean(xs)
  }

  lemma {:induction false} SumBetween(xs: seq<real>, lo: real, hi: real)
    requires Within(xs, lo, hi)
    ensures |xs| as real * lo <= Sum(xs) <= |xs| as real * hi
    decreases |xs|
  {
    if xs != [] {
      var front, last := xs[..|xs| - 1], xs[|xs| - 1];
      SumBetween(front, lo, hi);
      var n := |front| as real;
      assert (n + 1.0) * lo == n * lo + lo && (n + 1.0) * hi == n * hi + hi;
    }
  }

  lemma SumScalesStep(s: real, x: real, n: real, a: real, b: real)
    ensures (a * s + n * b) + Rescale(x, a, b) == a * (s + x) + (n + 1.0) * b
  {
  }

  lemma {:induction false} SumScales(xs: seq<real>, a: real, b: real)
    ensures Sum(Scaled(xs, a, b)) == a * Sum(xs) + |xs| as real * b
    decreases |xs|
  {
    hide Rescale, Scaled;
    if xs != [] {
      var front, last := xs[..|xs| - 1], xs[|xs| - 1];
      assert xs == front + [last];
      ScaledSnoc(front, last, a, b);
      var r := Scaled(xs, a, b);
      assert r[..|r| - 1] == Scaled(front, a, b);
      SumScales(front, a, b);
      SumScalesStep(Sum(front), last, |front| as real, a, b);
    }
  }

  /** The sum goes through the samples one by one. */
  lemma {:induction false} SumAppend(xs: seq<real>, ys: seq<real>)
    ensures Sum(xs + ys) == Sum(xs) + Sum(ys) && Sum([]) == 0.0
    ensures forall x: real :: Sum([x]) == x
    decreases |ys|
  {
    forall x: real
      ensures Sum([x]) == x
    {
      assert [x][..0] == [];
    }
    if ys == [] {
      assert xs + ys == xs;
    } else {
      SumAppend(xs, ys[..|ys| - 1]);
      assert (xs + ys)[..|xs + ys| - 1] == xs + ys[..|ys| - 1];
    }
  }

  /** The samples' distances from the mean cancel, and they do from no other value. */
  lemma MeanBalances(xs: seq<real>, v: real)
    requires xs != []
    ensures Sum(Scaled(xs, 1.0, -v)) == 0.0 <==> v == Mean(xs)
  {
    var n := |xs| as real;
    SumScales(xs, 1.0, -v);
    hide Sum, Scaled;
    Balance(Sum(xs), n, v);
  }

  lemma Balance(s: real, n: real, v: real)
    requires n > 0.0
    ensures 1.0 * s + n * -v == 0.0 <==> v == s / n
  {
    var m := s / n;
    assert n * m == s;
    if n * v == n * m {
      DivideOne(n, v, m);
      DivideOne(n, m, v);
    }
  }

  lemma StatBetween(stat: Stat, xs: seq<real>, lo: real, hi: real)
    requires xs != [] && Within(xs, lo, hi)
    ensures lo <= Apply(stat, xs) <= hi
  {
    if stat == TheMean {
      SumBetween(xs, lo, hi);
      Divide(Sum(xs), |xs| as real, lo, hi);
    } else {
      QuantileBetween(InOrder(xs), 0.5);
      WithinInOrder(xs, lo, hi);
    }
  }

  lemma MeanScales(s: real, n: real, a: real, b: real)
    requires n > 0.0
    ensures (a * s + n * b) / n == Rescale(s / n, a, b)
  {
    var v := s / n;
    assert n * v == s;
    assert a * (n * v) == n * (a * v);
    assert a * s + n * b == n * (a * v + b);
  }

  lemma StatScales(stat: Stat, xs: seq<real>, a: real, b: real)
    requires xs != [] && a > 0.0
    ensures Apply(stat, Scaled(xs, a, b)) == Rescale(Apply(stat, xs), a, b)
  {
    hide At, Rescale, InOrder, Sum, Scaled;
    if stat == TheMean {
      SumScales(xs, a, b);
      MeanScales(Sum(xs), |xs| as real, a, b);
    } else {
      OrderScales(xs, a, b);
      QuantileScales(InOrder(xs), 0.5, a, b);
    }
  }

  predicate IsDraw(n: nat, p: seq<nat>) {
    |p| == n && forall i :: 0 <= i < n ==> p[i] < n
  }

  /** The indices drawn for the resamples. */
  ghost predicate Draws(n: nat, picks: seq<seq<nat>>) {
    forall k :: 0 <= k < |picks| ==> IsDraw(n, picks[k])
  }

  function Resample(xs: seq<real>, pick: seq<nat>): (r: seq<real>)
    requires IsDraw(|xs|, pick)
    ensures |r| == |xs|
  {
    seq(|xs|, k requires 0 <= k < |xs| => xs[pick[k]])
  }

  function StatsOf(xs: seq<real>, stat: Stat, picks: seq<seq<nat>>): (r: seq<real>)
    requires xs != [] && Draws(|xs|, picks)
    ensures |r| == |picks|
  {
    seq(|picks|, k requires 0 <= k < |picks| => Apply(stat, Resample(xs, picks[k])))
  }

  datatype Interval = Interval(lo: real, hi: real)

  /** `stat` takes the value `v` on a resample of `xs` drawn as `pick`. */
  ghost predicate IsStatOf(xs: seq<real>, stat: Stat, pick: seq<nat>, v: real)
    requires xs != [] && IsDraw(|xs|, pick)
  {
    exists sample: seq<real> ::
      |sample| == |xs| && (forall i :: 0 <= i < |xs| ==> sample[i] == xs[pick[i]]) && v == Apply(stat, sample)
  }

  /** `stats` are the resampled statistics, one a draw. */
  ghost predicate AreStatsOf(xs: seq<real>, stat: Stat, picks: seq<seq<nat>>, stats: seq<real>)
    requires xs != [] && Draws(|xs|, picks)
  {
    |stats| == |picks| && forall k :: 0 <= k < |picks| ==> IsStatOf(xs, stat, picks[k], stats[k])
  }

  lemma StatsAreThose(xs: seq<real>, stat: Stat, picks: seq<seq<nat>>)
    requires xs != [] && Draws(|xs|, picks)
    ensures AreStatsOf(xs, stat, picks, StatsOf(xs, stat, picks))
  {
    hide Apply;
    forall k | 0 <= k < |picks|
      ensures IsStatOf(xs, stat, picks[k], StatsOf(xs, stat, picks)[k])
    {
      var sample := Resample(xs, picks[k]);
      assert forall i :: 0 <= i < |xs| ==> sample[i] == xs[picks[k][i]];
    }
  }

  /** The interval leaves a fortieth of the resampled statistics on either side, rounded up to whole ones,
      and no more than the rest on the other. */
  lemma CiRanks(xs: seq<real>, stat: Stat, picks: seq<seq<nat>>, ci: Interval)
    requires |xs| > 1 && Draws(|xs|, picks) && Ci(xs, stat, picks) == Some(ci)
    ensures var stats, n := StatsOf(xs, stat, picks), |picks|;
      && AreStatsOf(xs, stat, picks, stats)
      && 40 * Tally(Below(ci.lo), stats) < n + 39 && 40 * Tally(Above(ci.lo), stats) < 39 * n + 1
      && 40 * Tally(Above(ci.hi), stats) < n + 39 && 40 * Tally(Below(ci.hi), stats) < 39 * n + 1
  {
    var stats := StatsOf(xs, stat, picks);
    StatsAreThose(xs, stat, picks);
    PercentileRanks(stats, ci);
  }

  lemma PercentileRanks(stats: seq<real>, ci: Interval)
    requires Percentiles(stats) == Some(ci)
    ensures var n := |stats|;
      && 40 * Tally(Below(ci.lo), stats) < n + 39 && 40 * Tally(Above(ci.lo), stats) < 39 * n + 1
      && 40 * Tally(Above(ci.hi), stats) < n + 39 && 40 * Tally(Below(ci.hi), stats) < 39 * n + 1
  {
    QuantileRank(stats, 0.025, ci.lo);
    QuantileRank(stats, 0.975, ci.hi);
    hide Tally, At, InOrder, Below, Above;
    FortiethPos(|stats|);
  }

  lemma FortiethPos(n: nat)
    requires n > 0
    ensures 40 * Ceil(Pos(n, 0.025)) < n + 39 && 40 * (n - 1 - Pos(n, 0.025).Floor) < 39 * n + 1
    ensures 40 * Ceil(Pos(n, 0.975)) < 39 * n + 1 && 40 * (n - 1 - Pos(n, 0.975).Floor) < n + 39
  {
    var p, r := Pos(n, 0.025), Pos(n, 0.975);
    assert 40.0 * p == (n - 1) as real && 40.0 * r == 39.0 * (n - 1) as real;
    assert (Ceil(p) as real) < p + 1.0 && (Ceil(r) as real) < r + 1.0;
    assert p - 1.0 < p.Floor as real && r - 1.0 < r.Floor as real;
  }

  function Percentiles(stats: seq<real>): Option<Interval> {
    var s := InOrder(stats);
    if s == [] then None else Some(Interval(At(s, 0.025), At(s, 0.975)))
  }

  function Ci(xs: seq<real>, stat: Stat, picks: seq<seq<nat>>): Option<Interval>
    requires Draws(|xs|, picks)
  {
    if xs == [] then None
    else if |xs| == 1 then Some(Interval(Apply(stat, xs), Apply(stat, xs)))
    else Percentiles(StatsOf(xs, stat, picks))
  }

  /** The interval from the resampled statistics; nothing for no data or no resamples. */
  method BootstrapCi(xs: seq<real>, stat: Stat, picks: seq<seq<nat>>) returns (ci: Option<Interval>)
    requires Draws(|xs|, picks)
    ensures ci == Ci(xs, stat, picks)
    ensures ci.None? <==> xs == [] || (|xs| > 1 && picks == [])
  {
    hide At, InOrder, Apply;
    var n := |xs|;
    if n == 0 {
      return None;
    }
    if n == 1 {
      var v := Apply(stat, xs);
      return Some(Interval(v, v));
    }
    var stats: seq<real> := [];
    for k := 0 to |picks|
      invariant |stats| == k && stats == StatsOf(xs, stat, picks)[..k]
    {
      var sample: seq<real> := [];
      for i := 0 to n
        invariant |sample| == i && sample == Resample(xs, picks[k])[..i]
      {
        sample := sample + [xs[picks[k][i]]];
      }
      assert sample == Resample(xs, picks[k]);
      stats := stats + [Apply(stat, sample)];
    }
    assert stats == StatsOf(xs, stat, picks);
    ci := Percentiles(stats);
  }

  /** Whatever is drawn, the interval is one and lies within the range of the samples. */
  lemma CiWithinSamples(xs: seq<real>, stat: Stat, picks: seq<seq<nat>>, ci: Interval, lo: real, hi: real)
    requires Draws(|xs|, picks) && Ci(xs, stat, picks) == Some(ci)
    requires Within(xs, lo, hi)
    ensures lo <= ci.lo <= ci.hi <= hi
  {
    if |xs| == 1 {
      StatBetween(stat, xs, lo, hi);
    } else {
      var stats := StatsOf(xs, stat, picks);
      hide At, InOrder, Apply, Percentiles;
      forall k | 0 <= k < |stats|
        ensures lo <= stats[k] <= hi
      {
        StatBetween(stat, Resample(xs, picks[k]), lo, hi);
      }
      PercentilesBetween(stats, lo, hi);
    }
  }

  lemma PercentilesBetween(stats: seq<real>, lo: real, hi: real)
    requires stats != [] && Within(stats, lo, hi)
    ensures Percentiles(stats).Some?
    ensures lo <= Percentiles(stats).value.lo <= Percentiles(stats).value.hi <= hi
  {
    var s := InOrder(stats);
    QuantileMonotone(s, 0.025, 0.975);
    QuantileBetween(s, 0.025);
    QuantileBetween(s, 0.975);
    WithinInOrder(stats, lo, hi);
  }

  /** With the same draws, the interval moves with the unit and the origin. */
  lemma CiScales(xs: seq<real>, stat: Stat, picks: seq<seq<nat>>, ci: Interval, a: real, b: real)
    requires Draws(|xs|, picks) && Ci(xs, stat, picks) == Some(ci) && a > 0.0
    ensures Ci(Scaled(xs, a, b), stat, picks) == Some(Interval(Rescale(ci.lo, a, b), Rescale(ci.hi, a, b)))
  {
    var ys := Scaled(xs, a, b);
    hide At, Rescale, InOrder, Apply;
    if |xs| == 1 {
      StatScales(stat, xs, a, b);
    } else {
      var stats := StatsOf(xs, stat, picks);
      forall k | 0 <= k < |picks|
        ensures StatsOf(ys, stat, picks)[k] == Rescale(stats[k], a, b)
      {
        assert Resample(ys, picks[k]) == Scaled(Resample(xs, picks[k]), a, b);
        StatScales(stat, Resample(xs, picks[k]), a, b);
      }
      assert StatsOf(ys, stat, picks) == Scaled(stats, a, b);
      OrderScales(stats, a, b);
      QuantileScales(InOrder(stats), 0.025, a, b);
      QuantileScales(InOrder(stats), 0.975, a, b);
    }
  }
}
