/** Tukey-fence outlier counts over exact reals. */
module OutlierCounts {
  import opened Options
  import opened BenchStats

  datatype Kind = LowSevere | LowMild | Inside | HighMild | HighSevere

  datatype Fences = Fences(lowSevere: real, lowMild: real, highMild: real, highSevere: real)

  datatype Outliers = Outliers(lowSevere: nat, lowMild: nat, highMild: nat, highSevere: nat)

  function Fence(q: real, k: real, iqr: real): real {
    q + k * iqr
  }

  function FencesOf(xs: seq<real>): Fences
    requires xs != []
  {
    var s := InOrder(xs);
    var q1, q3 := At(s, 0.25), At(s, 0.75);
    var iqr := q3 - q1;
    Fences(Fence(q1, -3.0, iqr), Fence(q1, -1.5, iqr), Fence(q3, 1.5, iqr), Fence(q3, 3.0, iqr))
  }

  /** The five kinds as intervals. */
  predicate IsKind(f: Fences, kind: Kind, x: real) {
    match kind
    case LowSevere => x < f.lowSevere
    case LowMild => f.lowSevere <= x < f.lowMild
    case Inside => f.lowMild <= x <= f.highMild
    case HighMild => f.highMild < x <= f.highSevere
    case HighSevere => f.highSevere < x
  }

  /** What the kinds mean: outliers lie more than one and a half interquartile ranges outside the
      quartiles, severe ones more than three. */
  lemma KindsByDistance(xs: seq<real>, x: real)
    requires xs != []
    ensures var q1, q3 := At(InOrder(xs), 0.25), At(InOrder(xs), 0.75);
      var f, range := FencesOf(xs), q3 - q1;
      && (IsKind(f, LowSevere, x) <==> q1 - x > 3.0 * range)
      && (IsKind(f, LowMild, x) <==> 1.5 * range < q1 - x <= 3.0 * range)
      && (IsKind(f, HighMild, x) <==> 1.5 * range < x - q3 <= 3.0 * range)
      && (IsKind(f, HighSevere, x) <==> x - q3 > 3.0 * range)
      && (IsKind(f, Inside, x) <==> q1 - x <= 1.5 * range && x - q3 <= 1.5 * range)
  {
    hide At, InOrder;
  }

  function KindIn(f: Fences, kind: Kind): real -> bool {
    x => IsKind(f, kind, x)
  }

  lemma FencesNest(xs: seq<real>)
    requires xs != []
    ensures Nested(FencesOf(xs))
  {
    QuantileMonotone(InOrder(xs), 0.25, 0.75);
    hide At;
  }

  function CountsOf(xs: seq<real>): Outliers
    requires xs != []
  {
    var f := FencesOf(xs);
    Outliers(Tally(KindIn(f, LowSevere), xs), Tally(KindIn(f, LowMild), xs),
             Tally(KindIn(f, HighMild), xs), Tally(KindIn(f, HighSevere), xs))
  }

  /** The counts over the first `i` samples; `inside` counts the rest. */
  ghost predicate CountsTo(f: Fences, xs: seq<real>, i: nat, out: Outliers, inside: nat)
    requires i <= |xs|
  {
    && out.lowSevere == Tally(KindIn(f, LowSevere), xs[..i]) && out.lowMild == Tally(KindIn(f, LowMild), xs[..i])
    && out.highMild == Tally(KindIn(f, HighMild), xs[..i]) && out.highSevere == Tally(KindIn(f, HighSevere), xs[..i])
    && inside == Tally(KindIn(f, Inside), xs[..i])
    && out.lowSevere + out.lowMild + out.highMild + out.highSevere + inside == i
  }

  ghost function Bump(out: Outliers, kind: Kind): Outliers {
    match kind
    case LowSevere => out.(lowSevere := out.lowSevere + 1)
    case LowMild => out.(lowMild := out.lowMild + 1)
    case HighMild => out.(highMild := out.highMild + 1)
    case HighSevere => out.(highSevere := out.highSevere + 1)
    case Inside => out
  }

  ghost predicate Nested(f: Fences) {
    f.lowSevere <= f.lowMild <= f.highMild <= f.highSevere
  }

  lemma OneKind(f: Fences, kind: Kind, other: Kind, x: real)
    requires Nested(f) && IsKind(f, kind, x)
    ensures IsKind(f, other, x) <==> other == kind
  {
  }

  lemma TallyNext(f: Fences, kind: Kind, other: Kind, xs: seq<real>, i: nat)
    requires Nested(f) && i < |xs| && IsKind(f, kind, xs[i])
    ensures Tally(KindIn(f, other), xs[..i + 1]) == Tally(KindIn(f, other), xs[..i]) + if other == kind then 1 else 0
  {
    OneKind(f, kind, other, xs[i]);
    TallySnoc(KindIn(f, other), xs[..i], xs[i]);
    assert xs[..i + 1] == xs[..i] + [xs[i]];
  }

  lemma CountOne(f: Fences, xs: seq<real>, i: nat, out: Outliers, inside: nat, kind: Kind)
    requires Nested(f) && i < |xs| && CountsTo(f, xs, i, out, inside) && IsKind(f, kind, xs[i])
    ensures CountsTo(f, xs, i + 1, Bump(out, kind), if kind == Inside then inside + 1 else inside)
  {
    forall other
      ensures Tally(KindIn(f, other), xs[..i + 1]) == Tally(KindIn(f, other), xs[..i]) + if other == kind then 1 else 0
    {
      TallyNext(f, kind, other, xs, i);
    }
    hide Tally, KindIn, IsKind, Nested;
  }

  lemma CountNone(f: Fences, xs: seq<real>)
    ensures CountsTo(f, xs, 0, Outliers(0, 0, 0, 0), 0)
  {
  }

  lemma CountAll(xs: seq<real>, out: Outliers, inside: nat)
    requires xs != [] && CountsTo(FencesOf(xs), xs, |xs|, out, inside)
    ensures out == CountsOf(xs) && inside == Tally(KindIn(FencesOf(xs), Inside), xs)
    ensures out.lowSevere + out.lowMild + out.highMild + out.highSevere + inside == |xs|
  {
    hide FencesOf, Tally, KindIn;
    assert xs[..|xs|] == xs;
  }

  /** Each sample is counted under the interval it falls in, and the rest are inside. */
  method ClassifyOutliers(xs: seq<real>) returns (r: Option<Outliers>)
    ensures r.None? <==> xs == []
    ensures r.Some? ==> r.value == CountsOf(xs)
    ensures r.Some? ==>
      r.value.lowSevere + r.value.lowMild + r.value.highMild + r.value.highSevere
      + Tally(KindIn(FencesOf(xs), Inside), xs) == |xs|
  {
    hide FencesOf, CountsOf, CountsTo, Tally, KindIn;
    if xs == [] {
      return None;
    }
    var f := FencesOf(xs);
    FencesNest(xs);
    var out := Outliers(0, 0, 0, 0);
    ghost var inside := 0;
    CountNone(f, xs);
    for i := 0 to |xs|
      invariant CountsTo(f, xs, i, out, inside)
    {
      var x := xs[i];
      if x < f.lowSevere {
        CountOne(f, xs, i, out, inside, LowSevere);
        out := out.(lowSevere := out.lowSevere + 1);
      } else if x < f.lowMild {
        CountOne(f, xs, i, out, inside, LowMild);
        out := out.(lowMild := out.lowMild + 1);
      } else if x > f.highSevere {
        CountOne(f, xs, i, out, inside, HighSevere);
        out := out.(highSevere := out.highSevere + 1);
      } else if x > f.highMild {
        CountOne(f, xs, i, out, inside, HighMild);
        out := out.(highMild := out.highMild + 1);
      } else {
        CountOne(f, xs, i, out, inside, Inside);
        inside := inside + 1;
      }
    }
    CountAll(xs, out, inside);
    r := Some(out);
  }

  lemma TallyOfPermutation(c: real -> bool, xs: seq<real>, ys: seq<real>)
    requires multiset(xs) == multiset(ys)
    ensures Tally(c, xs) == Tally(c, ys)
  {
    SameOrder(xs, ys);
    TallyInOrder(c, xs);
    TallyInOrder(c, ys);
  }

  /** Outlier counts do not depend on the order of the samples. */
  lemma CountsOfPermutation(xs: seq<real>, ys: seq<real>)
    requires xs != [] && ys != [] && multiset(xs) == multiset(ys)
    ensures CountsOf(xs) == CountsOf(ys)
  {
    SameOrder(xs, ys);
    hide InOrder, At, Tally, KindIn;
    var f := FencesOf(xs);
    TallyOfPermutation(KindIn(f, LowSevere), xs, ys);
    TallyOfPermutation(KindIn(f, LowMild), xs, ys);
    TallyOfPermutation(KindIn(f, HighMild), xs, ys);
    TallyOfPermutation(KindIn(f, HighSevere), xs, ys);
  }

  ghost function ScaledFences(f: Fences, a: real, b: real): Fences {
    Fences(Rescale(f.lowSevere, a, b), Rescale(f.lowMild, a, b), Rescale(f.highMild, a, b), Rescale(f.highSevere, a, b))
  }

  lemma KindScales(f: Fences, kind: Kind, x: real, a: real, b: real)
    requires a > 0.0
    ensures IsKind(f, kind, x) <==> IsKind(ScaledFences(f, a, b), kind, Rescale(x, a, b))
  {
    hide Rescale;
    ScaleKeepsOrder(a, b, x, f.lowSevere);
    ScaleKeepsOrder(a, b, f.lowSevere, x);
    ScaleKeepsOrder(a, b, x, f.lowMild);
    ScaleKeepsOrder(a, b, f.lowMild, x);
    ScaleKeepsOrder(a, b, x, f.highMild);
    ScaleKeepsOrder(a, b, f.highMild, x);
    ScaleKeepsOrder(a, b, x, f.highSevere);
    ScaleKeepsOrder(a, b, f.highSevere, x);
  }

  lemma {:induction false} TallyScales(f: Fences, kind: Kind, xs: seq<real>, a: real, b: real)
    requires a > 0.0
    ensures Tally(KindIn(ScaledFences(f, a, b), kind), Scaled(xs, a, b)) == Tally(KindIn(f, kind), xs)
    decreases |xs|
  {
    hide Rescale, ScaledFences, IsKind;
    if xs != [] {
      var front, x := xs[..|xs| - 1], xs[|xs| - 1];
      assert xs == front + [x];
      KindScales(f, kind, x, a, b);
      ScaledSnoc(front, x, a, b);
      TallyScales(f, kind, front, a, b);
      TallySnoc(KindIn(f, kind), front, x);
      TallySnoc(KindIn(ScaledFences(f, a, b), kind), Scaled(front, a, b), Rescale(x, a, b));
    }
  }

  lemma FenceScales(q: real, k: real, q1: real, q3: real, a: real, b: real)
    ensures Fence(Rescale(q, a, b), k, Rescale(q3, a, b) - Rescale(q1, a, b)) == Rescale(Fence(q, k, q3 - q1), a, b)
  {
    assert Rescale(q3, a, b) - Rescale(q1, a, b) == a * (q3 - q1);
    assert k * (a * (q3 - q1)) == a * (k * (q3 - q1));
  }

  lemma FencesScale(xs: seq<real>, a: real, b: real)
    requires xs != [] && a > 0.0
    ensures FencesOf(Scaled(xs, a, b)) == ScaledFences(FencesOf(xs), a, b)
  {
    hide At, InOrder, Rescale, Fence;
    OrderScales(xs, a, b);
    QuantileScales(InOrder(xs), 0.25, a, b);
    QuantileScales(InOrder(xs), 0.75, a, b);
    var q1, q3 := At(InOrder(xs), 0.25), At(InOrder(xs), 0.75);
    FenceScales(q1, -3.0, q1, q3, a, b);
    FenceScales(q1, -1.5, q1, q3, a, b);
    FenceScales(q3, 1.5, q1, q3, a, b);
    FenceScales(q3, 3.0, q1, q3, a, b);
  }

  /** Outlier counts do not depend on the unit or the origin. */
  lemma CountsScale(xs: seq<real>, a: real, b: real)
    requires xs != [] && a > 0.0
    ensures CountsOf(Scaled(xs, a, b)) == CountsOf(xs)
  {
    FencesScale(xs, a, b);
    hide FencesOf, Tally, KindIn, ScaledFences, Rescale;
    var f := FencesOf(xs);
    TallyScales(f, LowSevere, xs, a, b);
    TallyScales(f, LowMild, xs, a, b);
    TallyScales(f, HighMild, xs, a, b);
    TallyScales(f, HighSevere, xs, a, b);
  }

  lemma {:induction false} TallyDisjoint(c: real -> bool, d: real -> bool, wide: real -> bool, xs: seq<real>)
    requires forall x :: c(x) ==> wide(x) && !d(x)
    requires forall x :: d(x) ==> wide(x)
    ensures Tally(c, xs) + Tally(d, xs) <= Tally(wide, xs)
    decreases |xs|
  {
    if xs != [] {
      var front, x := xs[..|xs| - 1], xs[|xs| - 1];
      assert xs == front + [x];
      TallyDisjoint(c, d, wide, front);
      TallySnoc(c, front, x);
      TallySnoc(d, front, x);
      TallySnoc(wide, front, x);
    }
  }

  lemma QuarterPos(n: nat)
    requires n > 0
    ensures 4 * Ceil(Pos(n, 0.25)) <= n + 2 && 4 * (n - 1 - Pos(n, 0.75).Floor) <= n + 2
  {
    var p, r := Pos(n, 0.25), Pos(n, 0.75);
    assert 4.0 * p == (n - 1) as real && 4.0 * r == 3.0 * (n - 1) as real;
    assert (Ceil(p) as real) < p + 1.0;
    assert r - 1.0 < r.Floor as real;
  }

  /** On each side no more than a quarter of the samples, rounded up, can be outliers. */
  lemma FewOutliers(xs: seq<real>)
    requires xs != []
    ensures 4 * (CountsOf(xs).lowSevere + CountsOf(xs).lowMild) <= |xs| + 2
    ensures 4 * (CountsOf(xs).highSevere + CountsOf(xs).highMild) <= |xs| + 2
  {
    var q1, q3 := At(InOrder(xs), 0.25), At(InOrder(xs), 0.75);
    hide At, InOrder, Tally, FencesOf, Pos, Ceil;
    FencesNest(xs);
    FencesOutsideQuartiles(xs);
    QuantileRank(xs, 0.25, q1);
    QuantileRank(xs, 0.75, q3);
    QuarterPos(|xs|);
    OutliersAreBeyond(FencesOf(xs), xs, q1, q3);
  }

  lemma OutliersAreBeyond(f: Fences, xs: seq<real>, q1: real, q3: real)
    requires Nested(f) && f.lowMild <= q1 && q3 <= f.highMild
    ensures Tally(KindIn(f, LowSevere), xs) + Tally(KindIn(f, LowMild), xs) <= Tally(Below(q1), xs)
    ensures Tally(KindIn(f, HighSevere), xs) + Tally(KindIn(f, HighMild), xs) <= Tally(Above(q3), xs)
  {
    hide Tally;
    TallyDisjoint(KindIn(f, LowSevere), KindIn(f, LowMild), Below(q1), xs);
    TallyDisjoint(KindIn(f, HighSevere), KindIn(f, HighMild), Above(q3), xs);
  }

  lemma FencesOutsideQuartiles(xs: seq<real>)
    requires xs != []
    ensures FencesOf(xs).lowMild <= At(InOrder(xs), 0.25) && At(InOrder(xs), 0.75) <= FencesOf(xs).highMild
  {
    QuantileMonotone(InOrder(xs), 0.25, 0.75);
    hide At, InOrder;
  }
}
