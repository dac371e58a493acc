/** What a whole run of the fixer reports of the hints it does not fix. */
module SkipReport {
  import BlockClose
  import opened Options
  import opened Sequences
  import opened Sorting
  import opened SourceText
  import opened Splice
  import opened FixPlan
  import opened FixLoop

  // ---------------------------------------------------------------------
  // One round.
  // ---------------------------------------------------------------------

  /** A round's edits change nothing exactly if there are some, their growths cancel, and every gap
      and every replacement text stands already where it would come to stand. */
  lemma ChangesNothingExactly(t: Tool, src: Source)
    requires ValidTool(t) && t.lint(src).Parsed? && RoundPlan(t, src).Planned?
    ensures var edits := RoundPlan(t, src).edits;
      && Ordered(|src|, 0, LeftToRight(Resolved(edits)))
      && (ChangesNothing(t, src) <==>
            && edits != []
            && Growth(LeftToRight(Resolved(edits))) == 0
            && PiecesStand(src, 0, src, 0, LeftToRight(Resolved(edits))))
  {
    var edits := RoundPlan(t, src).edits;
    RoundFits(t, src);
    ResolvedIsEmpty(edits);
    SplicedIs(src, edits);
    UnchangedExactly(src, LeftToRight(Resolved(edits)));
    hide RoundPlan, Resolved, LeftToRight, Ordered, Growth, PiecesStand, Fits, Substitute;
  }

  /** Some skip of the report carries the hint's rule and line. */
  ghost predicate Mentions(skips: seq<Skip>, h: Hint) {
    exists why :: Skip(h.rule, h.line, why) in skips
  }

  lemma MentionsEither(a: seq<Skip>, b: seq<Skip>, h: Hint)
    ensures Mentions(a + b, h) <==> Mentions(a, h) || Mentions(b, h)
  {
    forall why
      ensures Skip(h.rule, h.line, why) in a + b <==> Skip(h.rule, h.line, why) in a || Skip(h.rule, h.line, why) in b
    {
    }
  }

  lemma ReportUnchanged(t: Tool, src: Source)
    requires t.lint(src).Parsed? && FixableHints(t, src) != [] && ChangesNothing(t, src)
    ensures RoundPlan(t, src).Planned? && Round(t, src) == None
    ensures RoundSkips(t, src) == PlanSkips(t, src)
  {
    hide RoundPlan, FixableHints, Resolved, Spliced, Fits, PlanSkips;
  }

  /** A round that is not kept reports every hint, except that one whose edits change nothing reports
      only the hints not located and the edits subsumed. */
  lemma NotKeptReports(t: Tool, src: Source, h: Hint)
    requires ValidTool(t) && t.lint(src).Parsed? && h in FixableHints(t, src) && Round(t, src) == None
    ensures Mentions(RoundSkips(t, src), h) <==> (ChangesNothing(t, src) ==> Mentions(PlanSkips(t, src), h))
  {
    hide FixableHints, Round, RoundSkips, ChangesNothing, PlanSkips, RoundPlan, LocationOf, Resolved;
    if ChangesNothing(t, src) {
      ReportUnchanged(t, src);
    } else {
      var i :| 0 <= i < |FixableHints(t, src)| && FixableHints(t, src)[i] == h;
      NoSkipIsSilent(t, src, i);
    }
  }

  /** The skip is of a fixable hint of the file. */
  ghost predicate OfSomeHint(t: Tool, src: Source, s: Skip)
    requires t.lint(src).Parsed?
  {
    exists i :: 0 <= i < |FixableHints(t, src)| && IsOfHint(s, FixableHints(t, src)[i])
  }

  ghost predicate IsOfHint(s: Skip, h: Hint) {
    s.rule == h.rule && s.line == h.line
  }

  /** Some edit of the plan, of the skip's rule and line, was dropped and gives way to a kept one. */
  ghost predicate OfDroppedEdit(t: Tool, src: Source, s: Skip)
    requires t.lint(src).Parsed? && RoundPlan(t, src).Planned?
  {
    exists e :: e in RoundPlan(t, src).edits && s.rule == e.rule && s.line == e.line
                && CoveredIn(e, Resolved(RoundPlan(t, src).edits))
  }

  /** What a skip claims is so. */
  ghost predicate SkipIsTrue(t: Tool, src: Source, s: Skip)
    requires t.lint(src).Parsed?
  {
    var plan := RoundPlan(t, src);
    match s.why
    case PlanningFailed => !t.planner.lexes(src) && OfSomeHint(t, src, s)
    case NotLocated =>
      && plan.Planned?
      && exists i :: 0 <= i < |FixableHints(t, src)| && SkipFor(t.planner, src, FixableHints(t, src), i, s)
    case Subsumed => plan.Planned? && OfDroppedEdit(t, src, s)
    case RolledBack(v) =>
      && plan.Planned? && v != Better && OfSomeHint(t, src, s) && Fits(|src|, plan.edits)
      && Spliced(src, plan.edits) != src && Deserves(t.lint(src), t.lint(Spliced(src, plan.edits)), v)
  }

  /** A round reports nothing but what is so. */
  lemma ReportIsTrue(t: Tool, src: Source, s: Skip)
    requires ValidTool(t) && t.lint(src).Parsed? && s in RoundSkips(t, src)
    ensures SkipIsTrue(t, src, s)
  {
    var hints, plan := FixableHints(t, src), RoundPlan(t, src);
    hide FixableHints, Resolved, Dropped, Spliced, Verify, Deserves, SkipAll, SkipEdits, Fits, LocationOf, CoveredIn;
    if plan.PlanError? {
      OfSkipAll(t, src, PlanningFailed, s);
    } else {
      RoundFits(t, src);
      if s in plan.skips {
        PlannedSkip(t, src, s);
      } else if s in SkipEdits(Dropped(plan.edits)) {
        SubsumedSkip(t, src, s);
      } else {
        RolledBackSkip(t, src, s);
      }
    }
  }

  lemma OfSkipAll(t: Tool, src: Source, why: Why, s: Skip)
    requires t.lint(src).Parsed? && s in SkipAll(FixableHints(t, src), why)
    ensures s.why == why && OfSomeHint(t, src, s)
  {
    hide FixableHints;
    var i :| 0 <= i < |FixableHints(t, src)| && SkipAll(FixableHints(t, src), why)[i] == s;
    assert IsOfHint(s, FixableHints(t, src)[i]);
  }

  lemma PlannedSkip(t: Tool, src: Source, s: Skip)
    requires t.lint(src).Parsed? && RoundPlan(t, src).Planned? && s in RoundPlan(t, src).skips
    ensures SkipIsTrue(t, src, s)
  {
    PlanAnswersExactly(t.planner, src, FixableHints(t, src));
    hide FixableHints, LocationOf;
  }

  lemma SubsumedSkip(t: Tool, src: Source, s: Skip)
    requires t.lint(src).Parsed? && RoundPlan(t, src).Planned? && Fits(|src|, RoundPlan(t, src).edits)
    requires s in SkipEdits(Dropped(RoundPlan(t, src).edits))
    ensures s.why == Subsumed && OfDroppedEdit(t, src, s)
  {
    var edits := RoundPlan(t, src).edits;
    hide RoundPlan, Resolved, Dropped, CoveredIn, Fits;
    var i :| 0 <= i < |Dropped(edits)| && SkipEdits(Dropped(edits))[i] == s;
    var e := Dropped(edits)[i];
    DroppedGivesWay(edits, |src|, e);
    KeptOrDropped(edits);
    assert e in multiset(Dropped(edits)) && e in multiset(edits);
  }

  lemma RolledBackSkip(t: Tool, src: Source, s: Skip)
    requires t.lint(src).Parsed? && RoundPlan(t, src).Planned? && Fits(|src|, RoundPlan(t, src).edits)
    requires s in RolledBackSkips(t, src)
    ensures SkipIsTrue(t, src, s)
  {
    var lint, c := t.lint(src), Candidate(t, src).value;
    var verdict := Verify(t.lint(c), lint.warnings, lint.status);
    VerdictExactly(lint, t.lint(c), verdict);
    hide Verify, Deserves, FixableHints, RoundPlan, Resolved, Spliced, SkipAll, Fits;
    OfSkipAll(t, src, RolledBack(verdict), s);
  }

  // ---------------------------------------------------------------------
  // The run's report.
  // ---------------------------------------------------------------------

  lemma {:induction false} VersionsEnd(t: Tool, src: Source, n: nat)
    requires t.lint(src).Parsed?
    ensures var vs := Versions(t, src, n);
      && |vs| <= n + 1 && (forall i :: 0 <= i < |vs| ==> t.lint(vs[i]).Parsed?)
      && (|vs| <= n ==> Round(t, vs[|vs| - 1]) == None)
    decreases n
  {
    hide Round;
    if n > 0 && Round(t, src).Some? {
      RoundParses(t, src);
      VersionsEnd(t, Round(t, src).value, n - 1);
    }
  }

  /** What the run reports, as `FixSource` does. */
  ghost function RunReport(t: Tool, orig: Source): seq<Skip>
    requires t.lint(orig).Parsed?
  {
    VersionsEnd(t, orig, MAX_ROUNDS);
    var vs := Versions(t, orig, MAX_ROUNDS);
    AllSkips(t, vs[..RoundsTried(t, vs)])
  }

  ghost function Result(t: Tool, orig: Source): (src: Source)
    requires t.lint(orig).Parsed?
    ensures t.lint(src).Parsed?
  {
    VersionsEnd(t, orig, MAX_ROUNDS);
    var vs := Versions(t, orig, MAX_ROUNDS);
    vs[|vs| - 1]
  }

  /** What the rounds before the last version reported. */
  ghost function EarlierReport(t: Tool, orig: Source): seq<Skip>
    requires t.lint(orig).Parsed?
  {
    VersionsEnd(t, orig, MAX_ROUNDS);
    var vs := Versions(t, orig, MAX_ROUNDS);
    AllSkips(t, vs[..|vs| - 1])
  }

  /** Eight rounds were kept, so the result was not tried again. */
  ghost predicate HitsCap(t: Tool, orig: Source)
    requires t.lint(orig).Parsed?
  {
    |Versions(t, orig, MAX_ROUNDS)| > MAX_ROUNDS
  }

  lemma CappedReport(t: Tool, orig: Source)
    requires t.lint(orig).Parsed? && HitsCap(t, orig)
    ensures RunReport(t, orig) == EarlierReport(t, orig)
  {
    hide Versions, AllSkips, Round, Fixable, RoundSkips;
    VersionsEnd(t, orig, MAX_ROUNDS);
  }

  lemma UncappedReport(t: Tool, orig: Source)
    requires t.lint(orig).Parsed? && !HitsCap(t, orig) && FixableHints(t, Result(t, orig)) != []
    ensures Round(t, Result(t, orig)) == None
    ensures RunReport(t, orig) == EarlierReport(t, orig) + RoundSkips(t, Result(t, orig))
  {
    hide Versions, Round, Fixable, RoundSkips;
    VersionsEnd(t, orig, MAX_ROUNDS);
    var vs := Versions(t, orig, MAX_ROUNDS);
    assert vs[..|vs|] == vs;
  }

  /** Which hints left in the run's result are reported: those that an earlier round happened to report
      by rule and line; and, if fewer than eight rounds were kept, all of them, unless the edits planned
      for the result change nothing: then those not located, or with an edit subsumed.  So there are two
      silent exits: the cap on rounds, and a round whose edits change nothing. */
  lemma HintsLeftAreReported(t: Tool, orig: Source, h: Hint)
    requires ValidTool(t) && t.lint(orig).Parsed? && h in FixableHints(t, Result(t, orig))
    ensures var last := Result(t, orig);
      Mentions(RunReport(t, orig), h) <==>
        || Mentions(EarlierReport(t, orig), h)
        || (!HitsCap(t, orig) && (ChangesNothing(t, last) ==> Mentions(PlanSkips(t, last), h)))
  {
    var last := Result(t, orig);
    hide *;
    if HitsCap(t, orig) {
      CappedReport(t, orig);
    } else {
      UncappedReport(t, orig);
      MentionsEither(EarlierReport(t, orig), RoundSkips(t, last), h);
      NotKeptReports(t, last, h);
    }
  }

  lemma {:induction false} RoundIsReported(t: Tool, vs: seq<Source>, j: nat, s: Skip)
    requires j < |vs| && (forall i :: 0 <= i < |vs| ==> t.lint(vs[i]).Parsed?) && s in RoundSkips(t, vs[j])
    ensures s in AllSkips(t, vs)
    decreases |vs|
  {
    hide RoundSkips;
    if j < |vs| - 1 {
      RoundIsReported(t, vs[..|vs| - 1], j, s);
    }
  }

  lemma StaysAnswered(t: Tool, src: Source, i: nat, skips: seq<Skip>, more: seq<Skip>)
    requires t.lint(src).Parsed? && i < |FixableHints(t, src)| && Answered(t, src, i, skips)
    requires forall s :: s in skips ==> s in more
    ensures Answered(t, src, i, more)
  {
    hide FixableHints, Round, ChangesNothing, RoundPlan, LocationOf, Resolved;
  }

  /** Every hint of every round that a run tries is answered by what the run reports; and every round
      tried but that of the result was kept. */
  lemma HintsTriedAreAnswered(t: Tool, orig: Source, j: nat, i: nat)
    requires ValidTool(t) && t.lint(orig).Parsed?
    requires var vs := Versions(t, orig, MAX_ROUNDS);
      && (forall k :: 0 <= k < |vs| ==> t.lint(vs[k]).Parsed?)
      && j < RoundsTried(t, vs) && i < |FixableHints(t, vs[j])|
    ensures var vs := Versions(t, orig, MAX_ROUNDS);
      && Round(t, vs[j]) == (if j + 1 < |vs| then Some(vs[j + 1]) else None)
      && Answered(t, vs[j], i, RunReport(t, orig))
  {
    hide *;
    var vs := Versions(t, orig, MAX_ROUNDS);
    VersionsEnd(t, orig, MAX_ROUNDS);
    VersionsAreRun(t, orig, MAX_ROUNDS);
    TriedIsKept(t, vs, j);
    NoSkipIsSilent(t, vs[j], i);
    forall s | s in RoundSkips(t, vs[j])
      ensures s in RunReport(t, orig)
    {
      TriedIsReported(t, orig, vs, j, s);
    }
    StaysAnswered(t, vs[j], i, RoundSkips(t, vs[j]), RunReport(t, orig));
  }

  lemma TriedIsKept(t: Tool, vs: seq<Source>, j: nat)
    requires IsRun(t, vs) && j < RoundsTried(t, vs)
    requires |vs| <= MAX_ROUNDS ==> Round(t, vs[|vs| - 1]) == None
    ensures Round(t, vs[j]) == if j + 1 < |vs| then Some(vs[j + 1]) else None
  {
    hide Round, Fixable;
  }

  lemma TriedIsReported(t: Tool, orig: Source, vs: seq<Source>, j: nat, s: Skip)
    requires t.lint(orig).Parsed? && vs == Versions(t, orig, MAX_ROUNDS)
    requires (forall i :: 0 <= i < |vs| ==> t.lint(vs[i]).Parsed?) && j < RoundsTried(t, vs)
    requires s in RoundSkips(t, vs[j])
    ensures s in RunReport(t, orig)
  {
    hide Versions, AllSkips, Round, RoundSkips, RoundsTried;
    RoundIsReported(t, vs[..RoundsTried(t, vs)], j, s);
  }

  // ---------------------------------------------------------------------
  // The cap is reached.
  // ---------------------------------------------------------------------

  const SHAVING: Hint := Hint("L007", 1, 0)

  /** A warning for every byte, and one hint as long as there is a byte. */
  function ShaverLint(src: Source): Lint {
    Parsed(seq(|src|, i => Warning("L007", 1, "m")), if src == [] then [] else [SHAVING], None)
  }

  function Shave(h: Hint): Edit {
    Edit(0, 1, [], h.rule, h.line)
  }

  /** A hint deletes the file's first byte, if there is one. */
  function Shaver(): Tool {
    Tool(ShaverLint, Planner(_ => true, (src, h, _) => if src == [] then NotHere else Located([Shave(h)])))
  }

  /** What becomes of a plan of one edit. */
  lemma OneEdit(src: Source, e: Edit)
    requires e.start <= e.end <= |src|
    ensures Fits(|src|, [e]) && Resolved([e]) == [e] && Dropped([e]) == []
    ensures Spliced(src, [e]) == src[..e.start] + e.text + src[e.end..]
  {
    assert [e][..0] == [] && [e][1..] == [];
    assert Sort(ResolveOrder, [e]) == [e] && Sort(RightToLeft, [e]) == [e];
    assert Keep([]) == [] && Drop([]) == [] && !Clashes(e, []);
    assert Reverse([e]) == [e];
    SplicedIs(src, [e]);
    assert Substitute(src, e.end, []) == src[e.end..];
  }

  /** What a round with one hint plans. */
  lemma OneHint(t: Tool, src: Source, h: Hint, e: Edit)
    requires t.lint(src).Parsed? && FixableHints(t, src) == [h]
    requires t.planner.lexes(src) && t.planner.planOne(src, h, DiscardName(1)) == Located([e])
    ensures RoundPlan(t, src) == Planned([e], [])
  {
    var hints := [h];
    assert hints[..0] == [] && hints[..1] == hints && Wraps([]) == 0;
    assert DiscardFor(hints, 0) == DiscardName(1);
    assert EditsOf(t.planner, src, []) == [] && SkipsOf(t.planner, src, []) == [];
  }

  lemma ShaverIsValid()
    ensures ValidTool(Shaver())
  {
  }

  lemma OnlyHint(t: Tool, src: Source, h: Hint)
    requires t.lint(src).Parsed? && t.lint(src).hints == [h] && h.rule in FIXABLE_RULES
    ensures FixableHints(t, src) == [h]
  {
    assert [h][..0] == [] && Fixable([]) == [];
  }

  /** Each round keeps the file without its first byte, and reports nothing. */
  lemma ShaverRound(src: Source)
    requires src != []
    ensures Round(Shaver(), src) == Some(src[1..]) && RoundSkips(Shaver(), src) == []
    ensures FixableHints(Shaver(), src) == [SHAVING]
  {
    ShaverParses(src);
    OnlyHint(Shaver(), src, SHAVING);
    OneHint(Shaver(), src, SHAVING, Shave(SHAVING));
    hide *;
    OneEdit(src, Shave(SHAVING));
    ShaverBetter(src);
    ShavedRound(src);
  }

  lemma ShavedRound(src: Source)
    requires src != [] && Shaver().lint(src).Parsed? && FixableHints(Shaver(), src) == [SHAVING]
    requires var e := Shave(SHAVING);
      && RoundPlan(Shaver(), src) == Planned([e], [])
      && Fits(|src|, [e]) && Resolved([e]) == [e] && Dropped([e]) == []
      && Spliced(src, [e]) == src[..e.start] + e.text + src[e.end..]
    requires Verify(ShaverLint(src[1..]), ShaverLint(src).warnings, None) == Better
    ensures Round(Shaver(), src) == Some(src[1..]) && RoundSkips(Shaver(), src) == []
  {
    RoundCases(Shaver(), src);
    assert SkipEdits([]) == [];
    assert src[..0] + [] + src[1..] == src[1..];
    hide Resolved, Dropped, Spliced, Round, RoundSkips, Verify, SkipEdits, FixableHints, RoundPlan, Fits;
    assert |src[1..]| != |src|;
  }

  /** One warning fewer, and nothing else changed. */
  lemma ShaverBetter(src: Source)
    requires src != []
    ensures Verify(ShaverLint(src[1..]), ShaverLint(src).warnings, None) == Better
  {
    var k := ("L007", "m");
    ShaverKeys(src);
    ShaverKeys(src[1..]);
    var before, after := Keys(ShaverLint(src).warnings), Keys(ShaverLint(src[1..]).warnings);
    assert (before - after)[k] == 1;
    hide Keys;
  }

  lemma ShaverKeys(src: Source)
    ensures Keys(ShaverLint(src).warnings) == multiset{}[("L007", "m") := |src|]
  {
    var ks := seq(|src|, i => ("L007", "m"));
    var ws := ShaverLint(src).warnings;
    assert seq(|ws|, i requires 0 <= i < |ws| => (ws[i].rule, ws[i].message)) == ks;
    Copies(ks, ("L007", "m"));
  }

  lemma {:induction false} Copies(ks: seq<Key>, k: Key)
    requires forall i :: 0 <= i < |ks| ==> ks[i] == k
    ensures multiset(ks) == multiset{}[k := |ks|]
  {
    if ks != [] {
      Copies(ks[..|ks| - 1], k);
      assert ks == ks[..|ks| - 1] + [k];
    }
  }

  lemma {:induction false} ShaverRuns(src: Source, n: nat)
    requires |src| > n
    ensures var vs := Versions(Shaver(), src, n);
      && |vs| == n + 1 && (forall i :: 0 <= i <= n ==> vs[i] == src[i..])
    decreases n
  {
    hide Round, RoundSkips, Shaver, ShaverLint;
    assert Shaver().lint(src).Parsed? by { ShaverParses(src); }
    if n > 0 {
      ShaverRound(src);
      ShaverRuns(src[1..], n - 1);
    }
  }

  lemma ShaverParses(src: Source)
    ensures Shaver().lint(src).Parsed?
  {
  }

  lemma {:induction false} ShaverIsSilent(vs: seq<Source>)
    requires forall i :: 0 <= i < |vs| ==> vs[i] != [] && Shaver().lint(vs[i]).Parsed?
    ensures AllSkips(Shaver(), vs) == []
    decreases |vs|
  {
    hide RoundSkips, Round, Shaver;
    if vs != [] {
      ShaverIsSilent(vs[..|vs| - 1]);
      ShaverRound(vs[|vs| - 1]);
    }
  }

  /** The cap is a silent exit: on a file of more than eight bytes a fixable hint is left in the result of
      eight rounds, whose own round would be kept too, and the report is empty. */
  lemma CapIsSilent(src: Source)
    requires |src| > 8
    ensures ValidTool(Shaver()) && Shaver().lint(src).Parsed?
    ensures HitsCap(Shaver(), src) && RunReport(Shaver(), src) == []
    ensures var last := Result(Shaver(), src);
      && |last| == |src| - 8
      && FixableHints(Shaver(), last) == [SHAVING] && Round(Shaver(), last) == Some(last[1..])
  {
    hide *;
    EightRounds();
    ShaverIsValid();
    ShaverParses(src);
    ShaverRuns(src, MAX_ROUNDS);
    var vs := Versions(Shaver(), src, MAX_ROUNDS);
    VersionsEnd(Shaver(), src, MAX_ROUNDS);
    ShaverRound(vs[MAX_ROUNDS]);
    ShaverIsSilent(vs[..MAX_ROUNDS]);
    CapReport(Shaver(), src);
  }

  lemma EightRounds()
    ensures MAX_ROUNDS == 8
  {
  }

  lemma CapReport(t: Tool, orig: Source)
    requires t.lint(orig).Parsed? && |Versions(t, orig, MAX_ROUNDS)| == MAX_ROUNDS + 1
    ensures var vs := Versions(t, orig, MAX_ROUNDS);
      && (forall i :: 0 <= i < |vs| ==> t.lint(vs[i]).Parsed?) && HitsCap(t, orig)
      && Result(t, orig) == vs[MAX_ROUNDS] && RunReport(t, orig) == AllSkips(t, vs[..MAX_ROUNDS])
  {
    hide Versions, AllSkips, Round, Fixable, RoundSkips;
    VersionsEnd(t, orig, MAX_ROUNDS);
  }

  // ---------------------------------------------------------------------
  // Edits that change nothing.
  // ---------------------------------------------------------------------

  /** The scanner's answer from `start` on. */
  ghost predicate ScannerSays(src: Source, start: nat, r: int)
    requires start <= |src|
  {
    BlockClose.IsFirstClose(BlockClose.Scanner, src, start, r)
  }

  /** The strategy for a dead run that was found at `start`: delete up to the block's brace. */
  ghost function DeleteDead(src: Source, start: nat, h: Hint): Location {
    if start <= |src| && exists r: nat :: r < |src| && ScannerSays(src, start, r) then
      var r: nat :| r < |src| && ScannerSays(src, start, r);
      Located([Edit(start, r, [], h.rule, h.line)])
    else NotHere
  }

  lemma BraceClosesItself(src: Source, start: nat)
    requires start < |src|
    ensures ScannerSays(src, start, start) <==> src[start] == BlockClose.CLOSE
  {
  }

  lemma ScannerSaysOne(src: Source, start: nat, r: nat, r': nat)
    requires start <= |src| && ScannerSays(src, start, r) && ScannerSays(src, start, r')
    ensures r == r' && start <= r < |src|
  {
    BlockClose.FirstCloseIsUnique(BlockClose.Scanner, src, start, r, r');
  }

  /** A deletion is planned exactly if the scanner finds a brace, and reaches up to it. */
  lemma DeletesUpTo(src: Source, start: nat, h: Hint, r: nat)
    requires start <= |src|
    ensures DeleteDead(src, start, h) == Located([Edit(start, r, [], h.rule, h.line)]) <==> ScannerSays(src, start, r)
  {
    hide ScannerSays;
    if ScannerSays(src, start, r) {
      ScannerSaysOne(src, start, r, r);
      ScannerSaysOne(src, start, r, DeleteDead(src, start, h).edits[0].end);
    }
  }

  /** The deletion is empty exactly if what was found is itself a `}`. */
  lemma EmptyDeletion(src: Source, start: nat, h: Hint)
    requires start < |src|
    ensures DeleteDead(src, start, h) == Located([Edit(start, start, [], h.rule, h.line)]) <==>
              src[start] == BlockClose.CLOSE
  {
    DeletesUpTo(src, start, h, start);
    BraceClosesItself(src, start);
    hide DeleteDead, ScannerSays;
  }

  /** Every file has one dead run, found at `start`. */
  ghost function Deleter(start: nat): Tool {
    var lint := Parsed([Warning("L007", 1, "m")], [DeadHint()], None);
    Tool(_ => lint, Planner(_ => true, (src, h, _) => DeleteDead(src, start, h)))
  }

  function DeadHint(): Hint {
    Hint("L007", 1, 0)
  }

  lemma DeleterIsValid(start: nat)
    ensures ValidTool(Deleter(start))
  {
    forall src, h | DeleteDead(src, start, h).Located?
      ensures DeleteDead(src, start, h).edits != [] && Fits(|src|, DeleteDead(src, start, h).edits)
    {
      DeletionFits(src, start, h);
    }
    hide DeleteDead, Fits;
  }

  lemma DeletionFits(src: Source, start: nat, h: Hint)
    requires DeleteDead(src, start, h).Located?
    ensures DeleteDead(src, start, h).edits != [] && Fits(|src|, DeleteDead(src, start, h).edits)
  {
    hide ScannerSays;
    var r := DeleteDead(src, start, h).edits[0].end;
    ScannerSaysOne(src, start, r, r);
  }

  /** Edits that change nothing are a silent exit: where a dead statement is taken to start at a `}`,
      as one is that follows, on its line, the `}` of the block before it, its hint is left in the
      result, fewer than eight rounds are kept, and the report is empty. */
  lemma EmptyDeletionIsSilent(src: Source, start: nat)
    requires start < |src| && src[start] == BlockClose.CLOSE
    ensures var t := Deleter(start);
      && ValidTool(t) && t.lint(src).Parsed? && Result(t, src) == src && FixableHints(t, src) == [DeadHint()]
      && !HitsCap(t, src) && ChangesNothing(t, src) && RunReport(t, src) == []
  {
    var t, h := Deleter(start), DeadHint();
    DeleterIsValid(start);
    EmptyDeletion(src, start, h);
    OnlyHint(t, src, h);
    OneHint(t, src, h, Edit(start, start, [], h.rule, h.line));
    hide *;
    NothingPlanned(t, src, Edit(start, start, [], h.rule, h.line));
    StopsAtOnce(t, src);
  }

  lemma NothingPlanned(t: Tool, src: Source, e: Edit)
    requires t.lint(src).Parsed? && FixableHints(t, src) != [] && RoundPlan(t, src) == Planned([e], [])
    requires e.start == e.end <= |src| && e.text == []
    ensures ChangesNothing(t, src) && Round(t, src) == None && RoundSkips(t, src) == []
  {
    hide *;
    OneEdit(src, e);
    UnchangedBySplice(src, e.start);
    PlanWithoutChange(t, src, e);
    ReportUnchanged(t, src);
    NothingSkipped(t, src, e);
  }

  lemma UnchangedBySplice(src: Source, at: nat)
    requires at <= |src|
    ensures src[..at] + [] + src[at..] == src
  {
  }

  lemma PlanWithoutChange(t: Tool, src: Source, e: Edit)
    requires t.lint(src).Parsed? && RoundPlan(t, src) == Planned([e], [])
    requires Fits(|src|, [e]) && Resolved([e]) == [e] && Spliced(src, [e]) == src
    ensures ChangesNothing(t, src)
  {
    hide RoundPlan, Fits, Resolved, Spliced;
  }

  lemma NothingSkipped(t: Tool, src: Source, e: Edit)
    requires t.lint(src).Parsed? && RoundPlan(t, src) == Planned([e], []) && Dropped([e]) == []
    ensures PlanSkips(t, src) == []
  {
    hide RoundPlan, Dropped;
  }

  lemma StopsAtOnce(t: Tool, src: Source)
    requires t.lint(src).Parsed? && FixableHints(t, src) != [] && Round(t, src) == None
    ensures Result(t, src) == src && !HitsCap(t, src) && RunReport(t, src) == RoundSkips(t, src)
  {
    hide Round, RoundSkips;
    assert Versions(t, src, MAX_ROUNDS) == [src];
    assert [src][..1] == [src] && [src][..0] == [];
    assert AllSkips(t, []) == [];
  }
}
