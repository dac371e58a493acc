/** The line protocol between a benchmark driver and its runner: emission, parsing, and
    the checks on the parsed records. */
module BenchProtocol {
  import opened Options
  import opened Sequences
  import opened SourceText
  import opened TextLines
  import opened Decimal

  datatype Kind = UnitsKind | HarnessKind | SampleKind

  datatype Record =
    | Units(bench: Text, count: int)
    | Harness(iters: int, elapsed: int)
    | Sample(bench: Text, iters: int, elapsed: int)

  function Stem(): Text { "__HLBENCH_" }

  function Prefix(kind: Kind): Text {
    match kind
    case UnitsKind => "__HLBENCH_UNITS__ "
    case HarnessKind => "__HLBENCH_HARNESS__ "
    case SampleKind => "__HLBENCH__ "
  }

  lemma PrefixBearsStem(kind: Kind)
    ensures StartsWith(Prefix(kind), Stem()) && Free('\n', Prefix(kind))
    ensures |Prefix(kind)| > 10 && |Stem()| == 10
    ensures Prefix(kind)[10] == match kind case UnitsKind => 'U' case HarnessKind => 'H' case SampleKind => '_'
  {
  }

  /** No line starts with two of the prefixes. */
  lemma OneKind(line: Text, a: Kind, b: Kind)
    requires StartsWith(line, Prefix(a)) && StartsWith(line, Prefix(b))
    ensures a == b
  {
    PrefixBearsStem(a);
    PrefixBearsStem(b);
    hide Prefix;
    assert line[10] == Prefix(a)[10] == Prefix(b)[10];
  }

  lemma RecordLineBearsStem(line: Text, kind: Kind)
    requires StartsWith(line, Prefix(kind))
    ensures Occurs(Stem(), line)
  {
    PrefixBearsStem(kind);
    hide Prefix, Stem;
    assert line[..|Stem()|] == Prefix(kind)[..|Stem()|];
    assert OccursAt(Stem(), line, 0);
  }

  // ---------------------------------------------------------------------
  // Records as text.
  // ---------------------------------------------------------------------

  function Show(n: int): Text {
    if n < 0 then ['-'] + Print(-n) else Print(n)
  }

  function KindOf(r: Record): Kind {
    match r
    case Units(_, _) => UnitsKind
    case Harness(_, _) => HarnessKind
    case Sample(_, _, _) => SampleKind
  }

  function Fields(r: Record): (fields: seq<Text>)
    ensures fields != []
  {
    match r
    case Units(bench, count) => [bench, Show(count)]
    case Harness(iters, elapsed) => [Show(iters), Show(elapsed)]
    case Sample(bench, iters, elapsed) => [bench, Show(iters), Show(elapsed)]
  }

  function Render(r: Record): Text {
    Prefix(KindOf(r)) + Join(' ', Fields(r))
  }

  /** The records as the driver prints them. */
  lemma RenderText(bench: Text, count: int, iters: int, elapsed: int)
    ensures Render(Units(bench, count)) == "__HLBENCH_UNITS__ " + bench + " " + Show(count)
    ensures Render(Harness(iters, elapsed)) == "__HLBENCH_HARNESS__ " + Show(iters) + " " + Show(elapsed)
    ensures Render(Sample(bench, iters, elapsed)) == "__HLBENCH__ " + bench + " " + Show(iters) + " " + Show(elapsed)
  {
    hide Show;
    JoinTwo(bench, Show(count));
    JoinTwo(Show(iters), Show(elapsed));
    var parts := [bench, Show(iters), Show(elapsed)];
    assert parts[1..] == [Show(iters), Show(elapsed)];
    assert Join(' ', parts) == bench + [' '] + Join(' ', parts[1..]);
  }

  lemma JoinTwo(a: Text, b: Text)
    ensures Join(' ', [a, b]) == a + " " + b
  {
    assert [a, b][1..] == [b];
  }

  /** What the wire can carry: no sign, and no space in a name. */
  predicate Carried(r: Record) {
    match r
    case Units(bench, count) => Free(' ', bench) && count >= 0
    case Harness(iters, elapsed) => iters >= 0 && elapsed >= 0
    case Sample(bench, iters, elapsed) => Free(' ', bench) && iters >= 0 && elapsed >= 0
  }

  lemma ShowCanonical(n: int)
    ensures IsCanonical(Show(n)) <==> n >= 0
    ensures n >= 0 ==> Parse(Show(n)) == n
    ensures Free(' ', Show(n)) && Free('\n', Show(n))
  {
    if n >= 0 {
      PrintParse(n);
    } else {
      PrintParse(-n);
      assert Show(n)[0] == '-';
    }
  }

  lemma CanonicalShow(s: Text)
    requires IsCanonical(s)
    ensures Parse(s) >= 0 && Show(Parse(s)) == s
  {
    ParsePrint(s);
  }

  // ---------------------------------------------------------------------
  // Reading a line.
  // ---------------------------------------------------------------------

  datatype Reading = Skipped | Read(record: Record) | Malformed

  function ReadFields(kind: Kind, parts: seq<Text>): Reading {
    match kind
    case UnitsKind =>
      if |parts| != 2 || !IsCanonical(parts[1]) then Malformed
      else Read(Units(parts[0], Parse(parts[1])))
    case HarnessKind =>
      if |parts| != 2 || !IsCanonical(parts[0]) || !IsCanonical(parts[1]) then Malformed
      else Read(Harness(Parse(parts[0]), Parse(parts[1])))
    case SampleKind =>
      if |parts| != 3 || !IsCanonical(parts[1]) || !IsCanonical(parts[2]) then Malformed
      else Read(Sample(parts[0], Parse(parts[1]), Parse(parts[2])))
  }

  function ReadLine(line: Text): Reading {
    if line == [] then Skipped
    else if StartsWith(line, Prefix(UnitsKind)) then ReadAs(UnitsKind, line)
    else if StartsWith(line, Prefix(HarnessKind)) then ReadAs(HarnessKind, line)
    else if StartsWith(line, Prefix(SampleKind)) then ReadAs(SampleKind, line)
    else if Occurs(Stem(), line) then Malformed
    else Skipped
  }

  function ReadAs(kind: Kind, line: Text): Reading
    requires StartsWith(line, Prefix(kind))
  {
    ReadFields(kind, SplitOn(' ', line[|Prefix(kind)|..]))
  }

  lemma ReadFieldsExactly(kind: Kind, parts: seq<Text>, r: Record)
    requires AllFree(' ', parts)
    ensures ReadFields(kind, parts) == Read(r) <==> KindOf(r) == kind && Carried(r) && parts == Fields(r)
  {
    hide IsCanonical, Show, Parse;
    if ReadFields(kind, parts) == Read(r) {
      match kind
      case UnitsKind =>
        CanonicalShow(parts[1]);
      case HarnessKind =>
        CanonicalShow(parts[0]);
        CanonicalShow(parts[1]);
      case SampleKind =>
        CanonicalShow(parts[1]);
        CanonicalShow(parts[2]);
    }
    if KindOf(r) == kind && Carried(r) && parts == Fields(r) {
      match r
      case Units(_, count) =>
        ShowCanonical(count);
      case Harness(iters, elapsed) =>
        ShowCanonical(iters);
        ShowCanonical(elapsed);
      case Sample(_, iters, elapsed) =>
        ShowCanonical(iters);
        ShowCanonical(elapsed);
    }
  }

  predicate SpacelessName(r: Record) {
    r.Harness? || Free(' ', r.bench)
  }

  lemma FieldsFree(r: Record)
    requires SpacelessName(r)
    ensures AllFree(' ', Fields(r))
  {
    hide Show;
    match r
    case Units(_, count) =>
      ShowCanonical(count);
    case Harness(iters, elapsed) =>
      ShowCanonical(iters);
      ShowCanonical(elapsed);
    case Sample(_, iters, elapsed) =>
      ShowCanonical(iters);
      ShowCanonical(elapsed);
  }

  lemma CarriedIsSpaceless(r: Record)
    requires Carried(r)
    ensures SpacelessName(r)
  {
  }

  lemma ReadAsExactly(kind: Kind, line: Text, r: Record)
    requires StartsWith(line, Prefix(kind))
    ensures ReadAs(kind, line) == Read(r) <==> KindOf(r) == kind && Carried(r) && line == Render(r)
  {
    hide ReadFields, Fields, Carried, Prefix, SplitOn, Join;
    var rest := line[|Prefix(kind)|..];
    var parts := SplitOn(' ', rest);
    SplitThenJoin(' ', rest);
    ReadFieldsExactly(kind, parts, r);
    assert line == Prefix(kind) + rest;
    if KindOf(r) == kind && Carried(r) && line == Render(r) {
      CarriedIsSpaceless(r);
      FieldsFree(r);
      assert rest == Join(' ', Fields(r));
      JoinThenSplit(' ', Fields(r));
    }
  }

  /** A line reads as a record exactly when it is that record's own rendering. */
  lemma ReadLineExactly(line: Text, r: Record)
    ensures ReadLine(line) == Read(r) <==> Carried(r) && line == Render(r)
  {
    hide ReadAs, Carried, Prefix, Occurs, Join;
    forall kind | StartsWith(line, Prefix(kind))
      ensures ReadLine(line) == ReadAs(kind, line)
      ensures line != []
    {
      PrefixBearsStem(kind);
      forall other | StartsWith(line, Prefix(other))
        ensures other == kind
      {
        OneKind(line, kind, other);
      }
    }
    forall kind | StartsWith(line, Prefix(kind))
      ensures ReadAs(kind, line) == Read(r) <==> KindOf(r) == kind && Carried(r) && line == Render(r)
    {
      ReadAsExactly(kind, line, r);
    }
    if line == Render(r) {
      assert StartsWith(line, Prefix(KindOf(r)));
    }
  }

  /** A line is passed over exactly when the reserved stem does not occur in it. */
  lemma SkippedExactly(line: Text)
    ensures ReadLine(line) == Skipped <==> !Occurs(Stem(), line)
  {
    hide Prefix, Stem;
    forall kind | StartsWith(line, Prefix(kind))
      ensures Occurs(Stem(), line) && ReadAs(kind, line) != Skipped
    {
      RecordLineBearsStem(line, kind);
    }
    if line == [] {
      StemIsNotEmpty();
    }
  }

  lemma StemIsNotEmpty()
    ensures !Occurs(Stem(), [])
  {
  }

  // ---------------------------------------------------------------------
  // Reading a whole run's output.
  // ---------------------------------------------------------------------

  /** The lines in which the reserved stem occurs. */
  function BearingLines(lines: seq<Text>): seq<Text> {
    if lines == [] then []
    else
      var front, last := BearingLines(lines[..|lines| - 1]), lines[|lines| - 1];
      if Occurs(Stem(), last) then front + [last] else front
  }

  lemma {:induction false} BearingSelects(lines: seq<Text>)
    ensures Selects((line: Text) => Occurs(Stem(), line), lines, BearingLines(lines))
  {
    var p := (line: Text) => Occurs(Stem(), line);
    hide Selects, Occurs, Stem;
    if lines == [] {
      SelectsNone(p);
    } else {
      var front, last := lines[..|lines| - 1], lines[|lines| - 1];
      BearingSelects(front);
      SelectsSnoc(p, front, BearingLines(front), last);
      assert lines == front + [last];
    }
  }

  function Rendered(records: seq<Record>): (lines: seq<Text>)
    ensures |lines| == |records| && forall i :: 0 <= i < |records| ==> lines[i] == Render(records[i])
  {
    seq(|records|, i requires 0 <= i < |records| => Render(records[i]))
  }

  ghost predicate AllCarried(records: seq<Record>) {
    forall i :: 0 <= i < |records| ==> Carried(records[i])
  }

  /** Nothing is lost and nothing is invented: the records are, in order, exactly the lines
      in which the stem occurs. */
  ghost predicate Faithful(lines: seq<Text>, records: seq<Record>) {
    AllCarried(records) && Rendered(records) == BearingLines(lines)
  }

  lemma FaithfulMore(lines: seq<Text>, records: seq<Record>, line: Text)
    requires Faithful(lines, records)
    ensures !Occurs(Stem(), line) ==> Faithful(lines + [line], records)
    ensures forall r :: Carried(r) && line == Render(r) && Occurs(Stem(), line) ==>
      Faithful(lines + [line], records + [r])
  {
    hide Render, Carried, Occurs;
    assert (lines + [line])[..|lines|] == lines;
    forall r | Carried(r) && line == Render(r) && Occurs(Stem(), line)
      ensures Faithful(lines + [line], records + [r])
    {
      assert Rendered(records + [r]) == Rendered(records) + [line];
    }
  }

  lemma RenderBearsStem(r: Record)
    ensures Occurs(Stem(), Render(r))
  {
    hide Prefix, Stem, Join;
    RecordLineBearsStem(Render(r), KindOf(r));
  }

  datatype Parsed = Parsed(records: seq<Record>, error: Option<nat>)

  /** Either all lines were read, or those before the first malformed one. */
  ghost predicate ParsedFrom(lines: seq<Text>, p: Parsed) {
    match p.error
    case None => Faithful(lines, p.records)
    case Some(k) => k < |lines| && ReadLine(lines[k]) == Malformed && Faithful(lines[..k], p.records)
  }

  /** Reads the records up to the first line that misuses the reserved stem. */
  method ParseProtocol(stdout: Text) returns (p: Parsed)
    ensures ParsedFrom(SplitOn('\n', stdout), p)
  {
    hide ReadLine, Faithful, Render, Carried, Occurs, SplitOn, Stem;
    var lines := SplitOn('\n', stdout);
    var records: seq<Record> := [];
    FaithfulNone();
    for k := 0 to |lines|
      invariant Faithful(lines[..k], records)
    {
      var line := lines[k];
      assert lines[..k + 1] == lines[..k] + [line];
      FaithfulMore(lines[..k], records, line);
      SkippedExactly(line);
      match ReadLine(line) {
        case Skipped =>
        case Malformed =>
          return Parsed(records, Some(k));
        case Read(r) =>
          ReadLineExactly(line, r);
          records := records + [r];
      }
    }
    assert lines[..|lines|] == lines;
    p := Parsed(records, None);
  }

  lemma FaithfulNone()
    ensures Faithful([], [])
  {
  }

  lemma BearingMembers(lines: seq<Text>)
    ensures forall l :: l in BearingLines(lines) <==> l in lines && Occurs(Stem(), l)
  {
    hide Occurs;
    if lines != [] {
      BearingMembers(lines[..|lines| - 1]);
      assert lines == lines[..|lines| - 1] + [lines[|lines| - 1]];
    }
  }

  /** A malformed line is one that bears the stem without being the rendering of a record. */
  lemma MalformedExactly(line: Text)
    ensures ReadLine(line) == Malformed <==>
      Occurs(Stem(), line) && forall r :: Carried(r) ==> line != Render(r)
  {
    SkippedExactly(line);
    hide ReadLine, Render, Carried, Occurs, Stem;
    if ReadLine(line).Read? {
      ReadLineExactly(line, ReadLine(line).record);
    }
    forall r | ReadLine(line) == Malformed && Carried(r)
      ensures line != Render(r)
    {
      ReadLineExactly(line, r);
    }
  }

  lemma SameRendering(a: Record, b: Record)
    requires Carried(a) && Carried(b) && Render(a) == Render(b)
    ensures a == b
  {
    ReadLineExactly(Render(a), a);
    ReadLineExactly(Render(b), b);
  }

  /** Reading is determined by the lines: at most one list of records is faithful to them. */
  lemma FaithfulIsUnique(lines: seq<Text>, a: seq<Record>, b: seq<Record>)
    requires Faithful(lines, a) && Faithful(lines, b)
    ensures a == b
  {
    hide Render, Carried;
    assert |Rendered(a)| == |Rendered(b)|;
    forall i | 0 <= i < |a|
      ensures a[i] == b[i]
    {
      assert Rendered(a)[i] == Rendered(b)[i];
      SameRendering(a[i], b[i]);
    }
  }

  /** Output to which some records are faithful has no malformed line. */
  lemma ReadsWithoutError(lines: seq<Text>, records: seq<Record>, k: nat)
    requires Faithful(lines, records) && k < |lines|
    ensures ReadLine(lines[k]) != Malformed
  {
    hide Render, Carried, Occurs, Stem, ReadLine;
    MalformedExactly(lines[k]);
    if Occurs(Stem(), lines[k]) {
      BearingMembers(lines);
      assert lines[k] in BearingLines(lines);
      var i :| 0 <= i < |records| && Rendered(records)[i] == lines[k];
      assert lines[k] == Render(records[i]);
    }
  }

  /** Parsing succeeds exactly when every line that bears the stem is a record's rendering,
      and then with the only records there can be. */
  lemma ParsesExactly(lines: seq<Text>, p: Parsed)
    requires ParsedFrom(lines, p)
    ensures p.error == None <==> exists records :: Faithful(lines, records)
    ensures forall records :: Faithful(lines, records) ==> p == Parsed(records, None)
  {
    hide Faithful, ReadLine;
    forall records | Faithful(lines, records)
      ensures p == Parsed(records, None)
    {
      if p.error.Some? {
        ReadsWithoutError(lines, records, p.error.value);
      } else {
        FaithfulIsUnique(lines, records, p.records);
      }
    }
  }

  lemma StemChars(i: nat)
    requires i < 10
    ensures |Stem()| == 10 && Stem()[i] != ' ' && (Stem()[i] == '_' <==> i < 2 || i == 9)
    ensures |Prefix(SampleKind)| == 12 && Prefix(SampleKind)[11] == ' '
  {
  }

  /** Output that does not end its line swallows no record silently: whatever text without
      the stem stands before a record on its line, that line is an error. */
  lemma GluedLineIsMalformed(x: Text, r: Record)
    requires x != [] && !Occurs(Stem(), x)
    ensures ReadLine(x + Render(r)) == Malformed
  {
    var line := x + Render(r);
    hide Occurs, ReadAs, Join, Fields;
    assert StartsWith(Render(r), Stem()) && Occurs(Stem(), line) by {
      PrefixBearsStem(KindOf(r));
      hide Stem, Prefix;
      GluedStem(x, Render(r));
    }
    hide Stem, Prefix, Render;
    forall kind | StartsWith(line, Prefix(kind))
      ensures false
    {
      PrefixBearsStem(kind);
      NoSecondStem(x, Render(r), line, kind);
    }
    GluedNotEmpty(x, r);
  }

  lemma GluedNotEmpty(x: Text, r: Record)
    requires x != []
    ensures x + Render(r) != []
  {
    hide Render;
  }

  lemma GluedStem(x: Text, rest: Text)
    requires StartsWith(rest, Stem())
    ensures Occurs(Stem(), x + rest)
  {
    hide Stem;
    assert (x + rest)[|x|..|x| + |Stem()|] == rest[..|Stem()|];
    assert OccursAt(Stem(), x + rest, |x|);
  }

  lemma NoSecondStem(x: Text, rest: Text, line: Text, kind: Kind)
    requires x != [] && !Occurs(Stem(), x) && line == x + rest && StartsWith(rest, Stem())
    ensures !StartsWith(line, Prefix(kind))
  {
    PrefixBearsStem(kind);
    StemChars(0);
    StemChars(1);
    StemChars(2);
    hide Stem, Prefix, Occurs;
    var n := |x|;
    assert forall i :: 0 <= i < 10 ==> Prefix(kind)[i] == Prefix(kind)[..10][i] == Stem()[i];
    assert forall i :: 0 <= i < 10 ==> line[n + i] == rest[i] == rest[..10][i] == Stem()[i];
    if n >= 10 {
      NotAtStart(x);
      assert line[..10] == x[..10];
    } else if n == 1 {
      Differs(line, Prefix(kind), 2);
    } else if n < 9 {
      StemChars(n);
      assert line[n + 0] == Stem()[0];
      Differs(line, Prefix(kind), n);
    } else if kind == SampleKind {
      assert line[n + 2] == Stem()[2];
      Differs(line, Prefix(kind), 11);
    } else {
      assert line[n + 1] == Stem()[1];
      Differs(line, Prefix(kind), 10);
    }
  }

  lemma Differs(s: Text, prefix: Text, i: nat)
    requires i < |s| && i < |prefix| && s[i] != prefix[i]
    ensures !StartsWith(s, prefix)
  {
    assert |prefix| <= |s| ==> s[..|prefix|][i] == s[i];
  }

  lemma NotAtStart(x: Text)
    requires !Occurs(Stem(), x) && |x| >= |Stem()|
    ensures x[..|Stem()|] != Stem()
  {
    assert !OccursAt(Stem(), x, 0);
  }
}
