/** One benchmark's run: what its driver prints, and what the runner makes of it. */
module BenchRun {
  import opened Options
  import opened Sequences
  import opened SourceText
  import opened TextLines
  import opened BenchProtocol

  // ---------------------------------------------------------------------
  // The checks on the records.
  // ---------------------------------------------------------------------

  datatype Refusal = DriverFailed | ProtocolError | ForeignUnits | ForeignSample | WrongCount | NoHarness
    | NoElapsed | NoUnits | ZeroUnits

  datatype Timing = Timing(iters: int, elapsed: int)

  /** `ZeroIterations`: an estimate divides by a sample's iteration count of zero. */
  datatype Outcome =
    | Measured(units: Option<int>, samples: seq<Timing>, harness: Timing)
    | Refused(why: Refusal)
    | BenchSkipped
    | ZeroIterations

  predicate OfBench(bench: Text, r: Record) {
    match r
    case Units(b, _) => b == bench
    case Harness(_, _) => true
    case Sample(b, _, _) => b == bench
  }

  function SamplesOf(records: seq<Record>): seq<Timing> {
    if records == [] then []
    else
      var front, last := SamplesOf(records[..|records| - 1]), records[|records| - 1];
      if last.Sample? then front + [Timing(last.iters, last.elapsed)] else front
  }

  function HarnessOf(records: seq<Record>): Option<Timing> {
    if records == [] then None
    else
      var last := records[|records| - 1];
      if last.Harness? then Some(Timing(last.iters, last.elapsed)) else HarnessOf(records[..|records| - 1])
  }

  function UnitsOf(records: seq<Record>): Option<int> {
    if records == [] then None
    else
      var last := records[|records| - 1];
      if last.Units? then Some(last.count) else UnitsOf(records[..|records| - 1])
  }

  ghost predicate AllOfBench(records: seq<Record>, bench: Text) {
    forall i :: 0 <= i < |records| ==> OfBench(bench, records[i])
  }

  /** What is wrong with the records, for each refusal. */
  ghost predicate Blames(why: Refusal, records: seq<Record>, bench: Text, planned: nat, hasUnits: bool) {
    match why
    case DriverFailed => false
    case ProtocolError => false
    case ForeignUnits => exists r :: r in records && r.Units? && r.bench != bench
    case ForeignSample => exists r :: r in records && r.Sample? && r.bench != bench
    case WrongCount => |SamplesOf(records)| != planned
    case NoHarness => HarnessOf(records) == None
    case NoElapsed => exists t :: t in SamplesOf(records) && t.elapsed <= 0
    case NoUnits => hasUnits && UnitsOf(records) == None
    case ZeroUnits => hasUnits && UnitsOf(records).Some? && UnitsOf(records).value <= 0
  }

  ghost predicate NothingToBlame(records: seq<Record>, bench: Text, planned: nat, hasUnits: bool) {
    forall why :: !Blames(why, records, bench, planned, hasUnits)
  }

  ghost predicate NoZeroIterations(records: seq<Record>) {
    forall t :: t in SamplesOf(records) ==> t.iters != 0
  }

  /** The timings that a run's records hold: those of its sample records, in order. */
  lemma {:induction false} SamplesInOrder(records: seq<Record>) returns (picked: seq<Record>)
    ensures Selects((r: Record) => r.Sample?, records, picked) && |SamplesOf(records)| == |picked|
    ensures forall k :: 0 <= k < |picked| ==>
              picked[k].Sample? && SamplesOf(records)[k] == Timing(picked[k].iters, picked[k].elapsed)
  {
    var p := (r: Record) => r.Sample?;
    hide Selects;
    if records == [] {
      SelectsNone(p);
      picked := [];
    } else {
      var front, last := records[..|records| - 1], records[|records| - 1];
      picked := SamplesInOrder(front);
      SelectsSnoc(p, front, picked, last);
      assert records == front + [last];
      picked := if last.Sample? then picked + [last] else picked;
    }
  }

  /** Of several harness records, and of several units records, the last one counts. */
  lemma {:induction false} LastOneCounts(records: seq<Record>)
    ensures HarnessOf(records) == None <==> forall k :: 0 <= k < |records| ==> !records[k].Harness?
    ensures UnitsOf(records) == None <==> forall k :: 0 <= k < |records| ==> !records[k].Units?
    ensures forall k :: 0 <= k < |records| && records[k].Harness?
                        && (forall j :: k < j < |records| ==> !records[j].Harness?) ==>
              HarnessOf(records) == Some(Timing(records[k].iters, records[k].elapsed))
    ensures forall k :: 0 <= k < |records| && records[k].Units?
                        && (forall j :: k < j < |records| ==> !records[j].Units?) ==>
              UnitsOf(records) == Some(records[k].count)
  {
    if records != [] {
      var front, last := records[..|records| - 1], records[|records| - 1];
      LastOneCounts(front);
      assert forall k :: 0 <= k < |front| ==> records[k] == front[k];
    }
  }

  lemma TakeOne(records: seq<Record>, k: nat)
    requires k < |records|
    ensures records[..k + 1][..k] == records[..k] && records[..k + 1][k] == records[k]
  {
  }

  /** The record checks: a refusal exactly when there is something to blame, and then for
      something that is so; otherwise the records' own numbers. */
  method CheckRecords(records: seq<Record>, bench: Text, planned: nat, hasUnits: bool) returns (o: Outcome)
    ensures o != BenchSkipped && (o.Refused? ==> Blames(o.why, records, bench, planned, hasUnits))
    ensures !o.Refused? ==> NothingToBlame(records, bench, planned, hasUnits)
    ensures o.Measured? ==> NoZeroIterations(records)
    ensures o == ZeroIterations ==> !NoZeroIterations(records)
    ensures o.Measured? ==> o.samples == SamplesOf(records) && Some(o.harness) == HarnessOf(records)
    ensures o.Measured? ==> o.units == if hasUnits then UnitsOf(records) else None
  {
    var units: Option<int> := None;
    var harness: Option<Timing> := None;
    var samples: seq<Timing> := [];
    for k := 0 to |records|
      invariant units == UnitsOf(records[..k]) && harness == HarnessOf(records[..k])
      invariant samples == SamplesOf(records[..k])
      invariant AllOfBench(records[..k], bench)
    {
      TakeOne(records, k);
      match records[k] {
        case Units(b, count) =>
          if b != bench {
            assert records[k] in records && Blames(ForeignUnits, records, bench, planned, hasUnits);
            return Refused(ForeignUnits);
          }
          units := Some(count);
        case Harness(iters, elapsed) =>
          harness := Some(Timing(iters, elapsed));
        case Sample(b, iters, elapsed) =>
          if b != bench {
            assert records[k] in records && Blames(ForeignSample, records, bench, planned, hasUnits);
            return Refused(ForeignSample);
          }
          samples := samples + [Timing(iters, elapsed)];
      }
    }
    assert records[..|records|] == records;
    NoneForeign(records, bench, planned, hasUnits);
    if |samples| != planned {
      return Refused(WrongCount);
    }
    if harness.None? {
      return Refused(NoHarness);
    }
    for k := 0 to |samples|
      invariant forall i :: 0 <= i < k ==> samples[i].elapsed > 0
    {
      if samples[k].elapsed <= 0 {
        return Refused(NoElapsed);
      }
    }
    if hasUnits {
      if units.None? {
        return Refused(NoUnits);
      }
      if units.value <= 0 {
        return Refused(ZeroUnits);
      }
    } else {
      units := None;
    }
    for k := 0 to |samples|
      invariant forall i :: 0 <= i < k ==> samples[i].iters != 0
    {
      if samples[k].iters == 0 {
        return ZeroIterations;
      }
    }
    o := Measured(units, samples, harness.value);
  }

  lemma NoneForeign(records: seq<Record>, bench: Text, planned: nat, hasUnits: bool)
    requires AllOfBench(records, bench)
    ensures !Blames(ForeignUnits, records, bench, planned, hasUnits)
    ensures !Blames(ForeignSample, records, bench, planned, hasUnits)
  {
    forall r | r in records
      ensures OfBench(bench, r)
    {
      var i :| 0 <= i < |records| && records[i] == r;
    }
  }

  // ---------------------------------------------------------------------
  // The driver.
  // ---------------------------------------------------------------------

  datatype Mode = Fixed(iters: int) | Adaptive(warmupNs: int, sampleTimeNs: int, minIters: int, maxIters: int)

  /** What one call of the bench gives back, as far as the sink looks at it. */
  datatype Result = AnInt(v: int) | ABool(b: bool) | AString(length: nat) | AFloat(positive: bool) | Nothing

  /** One timed batch: what the clock says it took, what the bench printed in it, and what its
      calls gave back. */
  datatype Batch = Batch(elapsed: int, noise: Text, results: seq<Result>)

  datatype UnitsCall = UnitsCall(value: int, noise: Text)

  /** A benchmark's surroundings: its units function, if any, the warm-up batches, the
      samples, and the time of the empty loop. */
  datatype World = World(units: Option<UnitsCall>, warm: nat -> Batch, samples: nat -> Batch, harness: int)

  /** Whole lines that leave the reserved stem alone. */
  ghost predicate Quiet(noise: Text) {
    exists lines :: AllFree('\n', lines) && noise == Lines(lines) && BearingLines(lines) == []
  }

  /** Quiet, and of no more iterations than the sink can take. */
  ghost predicate QuietBatch(b: Batch) {
    Quiet(b.noise) && |b.results| <= SINK_CAPACITY
  }

  ghost predicate QuietWorld(w: World) {
    && (w.units.Some? ==> Quiet(w.units.value.noise))
    && (forall k :: QuietBatch(w.warm(k))) && (forall k :: QuietBatch(w.samples(k)))
  }

  /** Integer division as the driver's language does it, toward zero. */
  function Quot(a: int, b: int): int
    requires b > 0
  {
    if a >= 0 then a / b else -(-a / b)
  }

  // ---------------------------------------------------------------------
  // The sink that keeps the measured calls from being optimised away.
  // ---------------------------------------------------------------------

  /** Below this the driver prints the sink's own line. */
  const SINK_ESCAPE: int := -4611686018427387904

  /** So many iterations cannot bring the sink there. */
  const SINK_CAPACITY: nat := 46582687054822099

  function Contribution(r: Result): int {
    match r
    case AnInt(v) => v - Quot(v, 100) * 100
    case ABool(b) => if b then 1 else 0
    case AString(length) => length
    case AFloat(positive) => if positive then 1 else 0
    case Nothing => 1
  }

  function Sink(results: seq<Result>): int {
    if results == [] then 0 else Sink(results[..|results| - 1]) + Contribution(results[|results| - 1])
  }

  /** What a batch prints: the bench's own noise, and the sink's line if the sink escapes. */
  function Printed(b: Batch): Text {
    if Sink(b.results) < SINK_ESCAPE then b.noise + SinkLine() + ['\n'] else b.noise
  }

  function SinkLine(): Text { "__HLBENCH_SINK__" }

  /** An integer counts as its remainder by a hundred, which has its sign. */
  lemma IntegersCountSmall(v: int)
    ensures var c := Contribution(AnInt(v));
      -100 < c < 100 && (v - c) % 100 == 0 && (v >= 0 ==> c >= 0) && (v <= 0 ==> c <= 0)
  {
  }

  /** The sink's line is printed exactly if the sink is below minus two to the power of 62. */
  lemma SinkShowsExactly(b: Batch)
    ensures Printed(b) != b.noise <==> Sink(b.results) < -0x4000_0000_0000_0000
  {
    assert |Printed(b)| == |b.noise| <==> Printed(b) == b.noise;
  }

  lemma {:induction false} SinkFallsSlowly(results: seq<Result>)
    ensures Sink(results) >= -99 * |results|
  {
    if results != [] {
      SinkFallsSlowly(results[..|results| - 1]);
    }
  }

  /** The escape is unreachable: a batch that fits the sink prints only the bench's noise. */
  lemma SinkStays(b: Batch)
    requires |b.results| <= 46582687054822099
    ensures Printed(b) == b.noise
  {
    SinkFallsSlowly(b.results);
  }

  /** If the sink did escape, its line would be refused, not skipped. */
  lemma SinkLineIsRefused()
    ensures ReadLine(SinkLine()) == Malformed
  {
    var line := SinkLine();
    assert line[10] == 'S' && line[..10] == Stem() && |line| == 16;
    assert OccursAt(Stem(), line, 0);
    PrefixBearsStem(UnitsKind);
    PrefixBearsStem(HarnessKind);
    PrefixBearsStem(SampleKind);
    hide SinkLine, Prefix, Stem;
    Differs(line, Prefix(UnitsKind), 10);
    Differs(line, Prefix(HarnessKind), 10);
    Differs(line, Prefix(SampleKind), 10);
  }

  /** `q` is the whole-number quotient, rounded toward zero. */
  ghost predicate IsQuotient(a: int, b: int, q: int) {
    if a >= 0 then q * b <= a < (q + 1) * b else (q - 1) * b < a <= q * b
  }

  lemma QuotIsQuotient(a: int, b: int)
    requires b > 0
    ensures IsQuotient(a, b, Quot(a, b))
  {
    if a >= 0 {
      assert a == a / b * b + a % b;
    } else {
      assert -a == -a / b * b + -a % b;
      assert Quot(a, b) * b == -(-a / b * b);
    }
  }

  /** The sizes of the warm-up's batches: each twice the one before, and only the last one spends the
      budget or reaches the largest size. */
  ghost predicate Warmed(mode: Mode, w: World, sizes: seq<nat>)
    requires mode.Adaptive?
  {
    && sizes != [] && sizes[0] == 1
    && (forall j :: 0 <= j < |sizes| - 1 ==> sizes[j + 1] == 2 * sizes[j])
    && (forall j: nat :: j < |sizes| - 1 ==> w.warm(j).elapsed < mode.warmupNs && sizes[j] < mode.maxIters)
    && (w.warm(|sizes| - 1).elapsed >= mode.warmupNs || sizes[|sizes| - 1] >= mode.maxIters)
  }

  /** With `size` iterations taking `elapsed`, so many iterations are wanted to fill the sample time: an
      iteration counts as its whole number of nanoseconds, and as one at least. */
  ghost predicate Fills(mode: Mode, elapsed: int, size: nat, wanted: int)
    requires mode.Adaptive?
  {
    exists perIter ::
      IsQuotient(elapsed, size, perIter) && IsQuotient(mode.sampleTimeNs, if perIter < 1 then 1 else perIter, wanted)
  }

  /** `iters` is what is wanted, brought within the bounds; the upper bound wins. */
  ghost predicate Clamped(mode: Mode, wanted: int, iters: int)
    requires mode.Adaptive?
  {
    && iters <= mode.maxIters
    && (iters < mode.maxIters ==>
          mode.minIters <= iters && wanted <= iters && (iters == wanted || iters == mode.minIters))
    && (iters == mode.maxIters ==> wanted >= mode.maxIters || mode.minIters >= mode.maxIters)
  }

  /** The iterations per sample are those of the plan, or are sized from the last warm-up batch. */
  ghost predicate IsSized(mode: Mode, w: World, iters: int) {
    match mode
    case Fixed(n) => iters == n
    case Adaptive(_, _, _, _) =>
      exists sizes, wanted ::
        && Warmed(mode, w, sizes) && Fills(mode, w.warm(|sizes| - 1).elapsed, sizes[|sizes| - 1], wanted)
        && Clamped(mode, wanted, iters)
  }

  /** The text consists of whole lines, and the stem occurs in exactly the given records' lines. */
  ghost predicate Says(out: Text, records: seq<Record>) {
    exists lines :: AllFree('\n', lines) && out == Lines(lines) && BearingLines(lines) == Rendered(records)
  }

  lemma SaysNothing()
    ensures Says([], [])
  {
    assert Lines([]) == [] && BearingLines([]) == Rendered([]);
  }

  lemma {:induction false} BearingAppend(a: seq<Text>, b: seq<Text>)
    ensures BearingLines(a + b) == BearingLines(a) + BearingLines(b)
    decreases |b|
  {
    hide Occurs, Stem;
    if b == [] {
      assert a + b == a;
    } else {
      var front := b[..|b| - 1];
      assert (a + b)[..|a + b| - 1] == a + front;
      BearingAppend(a, front);
    }
  }

  lemma SaysNoise(out: Text, records: seq<Record>, noise: Text)
    requires Says(out, records) && Quiet(noise)
    ensures Says(out + noise, records)
  {
    var lines :| AllFree('\n', lines) && out == Lines(lines) && BearingLines(lines) == Rendered(records);
    var more :| AllFree('\n', more) && noise == Lines(more) && BearingLines(more) == [];
    LinesAppend(lines, more);
    BearingAppend(lines, more);
    assert AllFree('\n', lines + more);
  }

  /** The bench's name is a name: no space, no line feed. */
  predicate IsName(bench: Text) {
    Free(' ', bench) && Free('\n', bench)
  }

  predicate Named(r: Record) {
    r.Harness? || IsName(r.bench)
  }

  lemma RenderIsOneLine(r: Record)
    requires Named(r)
    ensures Free('\n', Render(r))
  {
    PrefixBearsStem(KindOf(r));
    hide Prefix, Show;
    match r
    case Units(b, count) =>
      ShowCanonical(count);
      assert Join(' ', [b, Show(count)]) == b + [' '] + Show(count);
    case Harness(iters, elapsed) =>
      ShowCanonical(iters);
      ShowCanonical(elapsed);
      assert Join(' ', [Show(iters), Show(elapsed)]) == Show(iters) + [' '] + Show(elapsed);
    case Sample(b, iters, elapsed) =>
      ShowCanonical(iters);
      ShowCanonical(elapsed);
      assert [b, Show(iters), Show(elapsed)][1..] == [Show(iters), Show(elapsed)];
      assert Join(' ', [Show(iters), Show(elapsed)]) == Show(iters) + [' '] + Show(elapsed);
  }

  lemma SaysRecord(out: Text, records: seq<Record>, r: Record)
    requires Says(out, records) && Named(r)
    ensures Says(out + Render(r) + ['\n'], records + [r])
  {
    hide Render, Named, Occurs, Stem;
    var lines :| AllFree('\n', lines) && out == Lines(lines) && BearingLines(lines) == Rendered(records);
    var longer := lines + [Render(r)];
    RenderIsOneLine(r);
    RenderBearsStem(r);
    assert longer[..|lines|] == lines;
    assert Rendered(records + [r]) == Rendered(records) + [Render(r)];
    assert AllFree('\n', longer) && Lines(longer) == out + Render(r) + ['\n'];
  }

  /** What the driver means to say. */
  function SampleRecords(bench: Text, w: World, iters: int, n: nat): seq<Record> {
    seq(n, k requires 0 <= k < n => Sample(bench, iters, w.samples(k).elapsed))
  }

  function DriverRecords(bench: Text, w: World, iters: int, n: nat): seq<Record> {
    (if w.units.Some? then [Units(bench, w.units.value.value)] else [])
    + SampleRecords(bench, w, iters, n) + [Harness(iters, w.harness)]
  }

  /** The warm-up: doubling batches until one is long or large enough. */
  method WarmUp(mode: Mode, w: World, out: Text) returns (iters: int, out': Text)
    requires mode.Adaptive?
    ensures IsSized(mode, w, iters)
    ensures forall records :: Says(out, records) && QuietWorld(w) ==> Says(out', records)
  {
    out' := out;
    var n, dt, warming := 1, 0, true;
    var k := 0;
    ghost var sizes: seq<nat> := [1];
    hide Says, Quiet, Printed, Clamped, Fills;
    while warming
      invariant n >= 1 && |sizes| == k + 1 && sizes[0] == 1 && sizes[k] == n
      invariant forall j :: 0 <= j < k ==> sizes[j + 1] == 2 * sizes[j]
      invariant forall j: nat :: j < k ==> w.warm(j).elapsed < mode.warmupNs && sizes[j] < mode.maxIters
      invariant !warming ==> Warmed(mode, w, sizes) && dt == w.warm(k).elapsed
      invariant forall records :: Says(out, records) && QuietWorld(w) ==> Says(out', records)
      decreases warming, mode.maxIters - n
    {
      var batch := w.warm(k);
      SinkHolds(batch);
      Heard(out, out', w, Printed(batch));
      out' := out' + Printed(batch);
      dt := batch.elapsed;
      if dt >= mode.warmupNs {
        warming := false;
      } else if n >= mode.maxIters {
        warming := false;
      } else {
        n, k := n * 2, k + 1;
        sizes := sizes + [n];
      }
    }
    var perIter := Quot(dt, n);
    QuotIsQuotient(dt, n);
    ghost var rounded := perIter;
    if perIter < 1 {
      perIter := 1;
    }
    iters := Quot(mode.sampleTimeNs, perIter);
    QuotIsQuotient(mode.sampleTimeNs, perIter);
    FillsFrom(mode, dt, n, rounded, iters);
    ghost var wanted := iters;
    if iters < mode.minIters {
      iters := mode.minIters;
    }
    if iters > mode.maxIters {
      iters := mode.maxIters;
    }
    ClampedFrom(mode, wanted, iters);
  }

  lemma FillsFrom(mode: Mode, elapsed: int, size: nat, perIter: int, wanted: int)
    requires mode.Adaptive? && IsQuotient(elapsed, size, perIter)
    requires IsQuotient(mode.sampleTimeNs, if perIter < 1 then 1 else perIter, wanted)
    ensures Fills(mode, elapsed, size, wanted)
  {
    hide IsQuotient;
  }

  lemma ClampedFrom(mode: Mode, wanted: int, iters: int)
    requires mode.Adaptive?
    requires iters ==
      var atLeast := if wanted < mode.minIters then mode.minIters else wanted;
      if atLeast > mode.maxIters then mode.maxIters else atLeast
    ensures Clamped(mode, wanted, iters)
  {
  }

  lemma SinkHolds(b: Batch)
    ensures QuietBatch(b) ==> Printed(b) == b.noise && Quiet(Printed(b))
  {
    if QuietBatch(b) {
      SinkStays(b);
    }
  }

  lemma Heard(start: Text, out: Text, w: World, noise: Text)
    requires forall records :: Says(start, records) && QuietWorld(w) ==> Says(out, records)
    requires QuietWorld(w) ==> Quiet(noise)
    ensures forall records :: Says(start, records) && QuietWorld(w) ==> Says(out + noise, records)
  {
    hide Says, Quiet;
    forall records | Says(start, records) && QuietWorld(w)
      ensures Says(out + noise, records)
    {
      SaysNoise(out, records, noise);
    }
  }

  /** The sample size keeps to the plan's bounds; the lower one gives way to the upper. */
  lemma SizedWithinBounds(mode: Mode, w: World, iters: int)
    requires IsSized(mode, w, iters) && mode.Adaptive?
    ensures iters <= mode.maxIters
    ensures mode.minIters <= mode.maxIters ==> mode.minIters <= iters
  {
  }

  lemma FixedSize(mode: Mode, w: World)
    requires mode.Fixed?
    ensures IsSized(mode, w, mode.iters)
  {
  }

  /** The driver's whole output. */
  method RunDriver(mode: Mode, n: nat, bench: Text, w: World) returns (out: Text, iters: int)
    ensures IsSized(mode, w, iters)
    ensures QuietWorld(w) && IsName(bench) ==> Says(out, DriverRecords(bench, w, iters, n))
  {
    hide Says, Quiet, Render, IsName, Printed, IsSized;
    ghost var said: seq<Record> := [];
    ghost var calm := QuietWorld(w) && IsName(bench);
    out := [];
    SaysNothing();
    if w.units.Some? {
      var u := Units(bench, w.units.value.value);
      if calm {
        SaysNoise(out, said, w.units.value.noise);
        SaysRecord(out + w.units.value.noise, said, u);
      }
      out := out + w.units.value.noise + Render(u) + ['\n'];
      said := said + [u];
    }
    match mode {
      case Fixed(k) =>
        iters := k;
        FixedSize(mode, w);
      case Adaptive(_, _, _, _) =>
        iters, out := WarmUp(mode, w, out);
    }
    ghost var first := said;
    for s := 0 to n
      invariant said == first + SampleRecords(bench, w, iters, s)
      invariant calm ==> Says(out, said)
    {
      var b := w.samples(s);
      var r := Sample(bench, iters, b.elapsed);
      if calm {
        SinkStays(b);
        SaysNoise(out, said, b.noise);
        SaysRecord(out + b.noise, said, r);
      }
      out := out + Printed(b) + Render(r) + ['\n'];
      said := said + [r];
      assert SampleRecords(bench, w, iters, s + 1) == SampleRecords(bench, w, iters, s) + [r];
    }
    var h := Harness(iters, w.harness);
    if calm {
      SaysRecord(out, said, h);
    }
    out := out + Render(h) + ['\n'];
    assert said + [h] == DriverRecords(bench, w, iters, n);
  }

  // ---------------------------------------------------------------------
  // Emission and parsing agree.
  // ---------------------------------------------------------------------

  lemma ShowInjective(a: int, b: int)
    requires Show(a) == Show(b) && a >= 0
    ensures a == b
  {
    ShowCanonical(a);
    ShowCanonical(b);
  }

  /** A line with a negative number in it is not also some carried record's line. */
  lemma RenderingDecides(r: Record, carried: Record)
    requires Named(r) && Carried(carried) && Render(r) == Render(carried)
    ensures Carried(r)
  {
    var line := Render(r);
    assert KindOf(r) == KindOf(carried) by {
      hide Prefix, Fields, Carried;
      assert StartsWith(line, Prefix(KindOf(r))) && StartsWith(line, Prefix(KindOf(carried)));
      OneKind(line, KindOf(r), KindOf(carried));
    }
    assert Fields(r) == Fields(carried) by {
      hide Prefix, Fields, Show, Carried;
      assert Join(' ', Fields(r)) == line[|Prefix(KindOf(r))|..] == Join(' ', Fields(carried));
      FieldsFree(r);
      FieldsFree(carried);
      JoinThenSplit(' ', Fields(r));
      JoinThenSplit(' ', Fields(carried));
    }
    FieldsDecide(r, carried);
  }

  lemma FieldsDecide(r: Record, carried: Record)
    requires Named(r) && Carried(carried) && KindOf(r) == KindOf(carried) && Fields(r) == Fields(carried)
    ensures Carried(r)
  {
    hide Show;
    assert |Fields(r)| >= 2;
    match carried
    case Units(_, count) =>
      assert Fields(r)[1] == Show(count);
      ShowInjective(count, r.count);
    case Harness(iters, elapsed) =>
      assert Fields(r)[0] == Show(iters) && Fields(r)[1] == Show(elapsed);
      ShowInjective(iters, r.iters);
      ShowInjective(elapsed, r.elapsed);
    case Sample(_, iters, elapsed) =>
      assert Fields(r)[1] == Show(iters) && Fields(r)[2] == Show(elapsed);
      ShowInjective(iters, r.iters);
      ShowInjective(elapsed, r.elapsed);
  }

  ghost predicate AllNamed(records: seq<Record>) {
    forall i :: 0 <= i < |records| ==> Named(records[i])
  }

  /** What was said is read back exactly, if the wire can carry it, and is otherwise refused. */
  lemma SaidIsRead(out: Text, records: seq<Record>, p: Parsed)
    requires Says(out, records) && AllNamed(records) && ParsedFrom(SplitOn('\n', out), p)
    ensures AllCarried(records) ==> p == Parsed(records, None)
    ensures !AllCarried(records) ==> p.error.Some?
  {
    hide Render, Carried, Named, Occurs, Stem, ReadLine, SplitOn;
    var lines :| AllFree('\n', lines) && out == Lines(lines) && BearingLines(lines) == Rendered(records);
    SplitLines(lines);
    var pieces := lines + [[]];
    assert pieces[..|lines|] == lines;
    StemIsNotEmpty();
    assert BearingLines(pieces) == BearingLines(lines);
    ParsesExactly(pieces, p);
    if AllCarried(records) {
      assert Faithful(pieces, records);
    } else if p.error == None {
      NotFaithful(pieces, records, p.records);
    }
  }

  lemma NotFaithful(lines: seq<Text>, records: seq<Record>, others: seq<Record>)
    requires BearingLines(lines) == Rendered(records) && AllNamed(records)
    requires Faithful(lines, others)
    ensures AllCarried(records)
  {
    hide Render, Carried, Named;
    assert |Rendered(records)| == |records| == |others|;
    forall i | 0 <= i < |records|
      ensures Carried(records[i])
    {
      assert Render(records[i]) == Rendered(records)[i] == Rendered(others)[i] == Render(others[i]);
      RenderingDecides(records[i], others[i]);
    }
  }

  /** A usable run: every measured time is positive, the harness time is not negative, some
      iterations were measured, and the units, if declared, are positive. */
  ghost predicate GoodRun(w: World, n: nat, iters: int) {
    && iters > 0 && w.harness >= 0 && (w.units.Some? ==> w.units.value.value > 0)
    && forall k :: 0 <= k < n ==> w.samples(k).elapsed > 0
  }

  function Timings(w: World, n: nat, iters: int): seq<Timing> {
    seq(n, k requires 0 <= k < n => Timing(iters, w.samples(k).elapsed))
  }

  lemma {:induction false} SamplesOfDriver(bench: Text, w: World, iters: int, n: nat, first: seq<Record>)
    requires |first| <= 1 && (first != [] ==> first[0].Units?)
    ensures SamplesOf(first + SampleRecords(bench, w, iters, n)) == Timings(w, n, iters)
    ensures UnitsOf(first + SampleRecords(bench, w, iters, n)) == if first == [] then None else Some(first[0].count)
  {
    var all := first + SampleRecords(bench, w, iters, n);
    if n == 0 {
      assert all == first;
      if first != [] {
        assert first[..0] == [];
      }
    } else {
      SamplesOfDriver(bench, w, iters, n - 1, first);
      assert all[..|all| - 1] == first + SampleRecords(bench, w, iters, n - 1);
      assert Timings(w, n, iters) == Timings(w, n - 1, iters) + [Timing(iters, w.samples(n - 1).elapsed)];
    }
  }

  lemma DriverRecordsRead(bench: Text, w: World, iters: int, n: nat)
    ensures var all := DriverRecords(bench, w, iters, n);
      && SamplesOf(all) == Timings(w, n, iters) && HarnessOf(all) == Some(Timing(iters, w.harness))
      && UnitsOf(all) == (if w.units.Some? then Some(w.units.value.value) else None)
      && AllOfBench(all, bench)
  {
    var first := if w.units.Some? then [Units(bench, w.units.value.value)] else [];
    var all := DriverRecords(bench, w, iters, n);
    assert all[..|all| - 1] == first + SampleRecords(bench, w, iters, n);
    SamplesOfDriver(bench, w, iters, n, first);
  }

  lemma DriverRecordsCarried(bench: Text, w: World, iters: int, n: nat)
    requires IsName(bench)
    ensures AllNamed(DriverRecords(bench, w, iters, n))
    ensures AllCarried(DriverRecords(bench, w, iters, n)) <==>
      && iters >= 0 && w.harness >= 0 && (w.units.Some? ==> w.units.value.value >= 0)
      && forall k :: 0 <= k < n ==> w.samples(k).elapsed >= 0
  {
    var first := if w.units.Some? then [Units(bench, w.units.value.value)] else [];
    var samples := SampleRecords(bench, w, iters, n);
    CarriedAppend(first, samples);
    CarriedAppend(first + samples, [Harness(iters, w.harness)]);
    SamplesCarried(bench, w, iters, n);
    OneCarried(Harness(iters, w.harness));
    if w.units.Some? {
      OneCarried(first[0]);
    }
    hide AllCarried, AllNamed, SampleRecords;
    if first == [] {
      assert first + samples == samples;
    }
  }

  lemma CarriedAppend(a: seq<Record>, b: seq<Record>)
    ensures AllCarried(a + b) <==> AllCarried(a) && AllCarried(b)
    ensures AllNamed(a + b) <==> AllNamed(a) && AllNamed(b)
  {
    hide Carried, Named;
    if AllCarried(a + b) || AllNamed(a + b) {
      assert forall i :: 0 <= i < |a| ==> a[i] == (a + b)[i];
      assert forall i :: 0 <= i < |b| ==> b[i] == (a + b)[|a| + i];
    }
  }

  lemma OneCarried(r: Record)
    ensures AllCarried([r]) <==> Carried(r)
    ensures AllNamed([r]) <==> Named(r)
  {
    assert [r][0] == r;
  }

  lemma SamplesCarried(bench: Text, w: World, iters: int, n: nat)
    requires IsName(bench)
    ensures AllNamed(SampleRecords(bench, w, iters, n))
    ensures AllCarried(SampleRecords(bench, w, iters, n)) <==>
      n == 0 || (iters >= 0 && forall k :: 0 <= k < n ==> w.samples(k).elapsed >= 0)
  {
    var samples := SampleRecords(bench, w, iters, n);
    forall k | 0 <= k < n
      ensures Carried(samples[k]) <==> iters >= 0 && w.samples(k).elapsed >= 0
    {
    }
    hide IsName, Named;
    assert n > 0 && AllCarried(samples) ==> Carried(samples[0]);
  }

  lemma GoodRunIsClean(bench: Text, w: World, iters: int, n: nat)
    requires n >= 1 && IsName(bench)
    ensures GoodRun(w, n, iters) <==>
      var all := DriverRecords(bench, w, iters, n);
      AllCarried(all) && NothingToBlame(all, bench, n, w.units.Some?) && NoZeroIterations(all)
  {
    var all := DriverRecords(bench, w, iters, n);
    DriverRecordsRead(bench, w, iters, n);
    DriverRecordsCarried(bench, w, iters, n);
    hide DriverRecords, AllCarried, IsName;
    NoneForeign(all, bench, n, w.units.Some?);
    var ts := SamplesOf(all);
    forall k | 0 <= k < n
      ensures ts[k] in ts && ts[k] == Timing(iters, w.samples(k).elapsed)
    {
    }
    if NothingToBlame(all, bench, n, w.units.Some?) {
      assert !Blames(NoElapsed, all, bench, n, w.units.Some?);
      assert !Blames(ZeroUnits, all, bench, n, w.units.Some?);
    }
    assert ts[0] in ts;
  }

  /** How the driver ended: its exit code, if it has one, and its standard error. */
  datatype Ending = Ending(rc: Option<int>, err: Text)

  predicate RanThrough(e: Ending) {
    e.rc == None || e.rc == Some(0)
  }

  /** Measuring a bench.  A driver that did not run through is a skip if it asked for one and a
      failure otherwise.  For one that did, and whose noise is whole lines without the reserved
      stem, there is a result exactly when the run is good: what the driver measured. */
  method MeasureBench(mode: Mode, n: nat, bench: Text, w: World, ending: Ending) returns (o: Outcome, iters: int)
    requires n >= 1
    ensures ending.rc.Some? && ending.rc.value != 0 ==>
      o == if ending.rc == Some(101) && Occurs("__HLBENCH_SKIP__:", ending.err) then BenchSkipped
           else Refused(DriverFailed)
    ensures RanThrough(ending) ==> IsSized(mode, w, iters) && o != BenchSkipped && o != Refused(DriverFailed)
    ensures RanThrough(ending) && QuietWorld(w) && IsName(bench) ==> (o.Measured? <==> GoodRun(w, n, iters))
    ensures QuietWorld(w) && IsName(bench) && o.Measured? ==>
      && o.units == (if w.units.Some? then Some(w.units.value.value) else None)
      && o.samples == Timings(w, n, iters) && o.harness == Timing(iters, w.harness)
  {
    hide *;
    if ending.rc.Some? && ending.rc.value != 0 {
      NotThrough(ending);
      iters := 0;
      o := if ending.rc.value == 101 && Occurs("__HLBENCH_SKIP__:", ending.err) then BenchSkipped
           else Refused(DriverFailed);
      return;
    }
    Through(ending);
    var out;
    out, iters := RunDriver(mode, n, bench, w);
    var p := ParseProtocol(out);
    ghost var all := DriverRecords(bench, w, iters, n);
    if QuietWorld(w) && IsName(bench) {
      DriverRecordsCarried(bench, w, iters, n);
      SaidIsRead(out, all, p);
      GoodRunIsClean(bench, w, iters, n);
      DriverRecordsRead(bench, w, iters, n);
    }
    if p.error.Some? {
      return Refused(ProtocolError), iters;
    }
    o := CheckRecords(p.records, bench, n, w.units.Some?);
    if o.Refused? {
      Blamed(o.why, p.records, bench, n, w.units.Some?);
    }
  }

  lemma NotThrough(e: Ending)
    requires e.rc.Some? && e.rc.value != 0
    ensures !RanThrough(e)
  {
  }

  lemma Through(e: Ending)
    requires e.rc == None || e.rc.value == 0
    ensures RanThrough(e)
  {
  }

  lemma Blamed(why: Refusal, records: seq<Record>, bench: Text, planned: nat, hasUnits: bool)
    requires Blames(why, records, bench, planned, hasUnits)
    ensures !NothingToBlame(records, bench, planned, hasUnits) && why != DriverFailed
  {
  }
}
