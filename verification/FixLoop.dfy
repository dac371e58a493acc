/** The fixer's round loop: plan, splice, verify, keep or roll back. */
module FixLoop {
  import opened Options
  import opened Sequences
  import opened SourceText
  import opened Splice
  import opened FixPlan

  datatype Warning = Warning(rule: string, line: nat, message: string)

  /** A rule and a message: what the fixer counts warnings by. */
  type Key = (string, string)

  /** The result of parsing and linting one file; `status` is the first error of
      the whole crate's load and check, if any. */
  datatype Lint = ParseError(msg: string) | Parsed(warnings: seq<Warning>, hints: seq<Hint>, status: Option<string>)

  /** The linter and the planner, as functions of the file's bytes. */
  datatype Tool = Tool(lint: Source -> Lint, planner: Planner)

  const FIXABLE_RULES := {"L001", "L002", "L004", "L006", "L007", "L010", "L011", "L012"}
  const MAX_ROUNDS: nat := 8

  /** The planner is valid, and every hint comes with a warning. */
  ghost predicate ValidTool(t: Tool) {
    && ValidPlanner(t.planner)
    && (forall src :: t.lint(src).Parsed? && t.lint(src).warnings == [] ==> t.lint(src).hints == [])
  }

  function Keys(ws: seq<Warning>): multiset<Key> {
    multiset(seq(|ws|, i requires 0 <= i < |ws| => (ws[i].rule, ws[i].message)))
  }

  function KeysOf(l: Lint): multiset<Key> {
    if l.Parsed? then Keys(l.warnings) else multiset{}
  }

  /** The positions of the warnings with this rule and message. */
  ghost function Positions(ws: seq<Warning>, k: Key): set<nat> {
    set i: nat | i < |ws| && ws[i].rule == k.0 && ws[i].message == k.1
  }

  /** A warning counts by its rule and its message, wherever it stands. */
  lemma {:induction false} KeysCount(ws: seq<Warning>, k: Key)
    ensures Keys(ws)[k] == |Positions(ws, k)|
  {
    if ws == [] {
      assert Positions(ws, k) == {};
    } else {
      var front, last := ws[..|ws| - 1], ws[|ws| - 1];
      KeysCount(front, k);
      KeysSnoc(front, last);
      assert ws == front + [last];
      assert Positions(ws, k) == Positions(front, k) + if (last.rule, last.message) == k then {|front|} else {};
    }
  }

  lemma KeysSnoc(front: seq<Warning>, last: Warning)
    ensures Keys(front + [last]) == Keys(front) + multiset{(last.rule, last.message)}
  {
    var ws := front + [last];
    assert seq(|ws|, i requires 0 <= i < |ws| => (ws[i].rule, ws[i].message)) ==
      seq(|front|, i requires 0 <= i < |front| => (front[i].rule, front[i].message)) + [(last.rule, last.message)];
  }

  lemma KeysSize(l: Lint)
    requires l.Parsed?
    ensures |KeysOf(l)| == |l.warnings|
  {
  }

  function Fixable(hints: seq<Hint>): seq<Hint> {
    if hints == [] then []
    else
      Fixable(hints[..|hints| - 1]) +
      if hints[|hints| - 1].rule in FIXABLE_RULES then [hints[|hints| - 1]] else []
  }

  /** The rules for which there is a strategy. */
  ghost predicate HasStrategy(h: Hint) {
    h.rule == "L001" || h.rule == "L002" || h.rule == "L004" || h.rule == "L006" || h.rule == "L007"
    || h.rule == "L010" || h.rule == "L011" || h.rule == "L012"
  }

  /** The fixable hints are those of the rules that have a strategy, in order. */
  lemma {:induction false} FixableSelects(hints: seq<Hint>)
    ensures Selects((h: Hint) => HasStrategy(h), hints, Fixable(hints))
  {
    var p := (h: Hint) => HasStrategy(h);
    hide Selects;
    if hints == [] {
      SelectsNone(p);
    } else {
      var front, last := hints[..|hints| - 1], hints[|hints| - 1];
      FixableSelects(front);
      SelectsSnoc(p, front, Fixable(front), last);
      assert hints == front + [last];
      assert Fixable(front) + [] == Fixable(front);
    }
  }

  // ---------------------------------------------------------------------
  // One round.
  // ---------------------------------------------------------------------

  function Verify(after: Lint, before: seq<Warning>, status: Option<string>): Verdict {
    if after.ParseError? then NoParse
    else if after.status != None && status == None then BrokeCrate
    else if after.status != None && after.status != status then ChangedError
    else if Keys(before) - Keys(after.warnings) == multiset{} then NothingResolved
    else if exists k :: k in Keys(after.warnings) && k.0 !in FIXABLE_RULES && Keys(after.warnings)[k] > Keys(before)[k]
      then NewUnfixable
    else if |after.warnings| > |before| then Grew
    else Better
  }

  function FixableHints(t: Tool, src: Source): seq<Hint>
    requires t.lint(src).Parsed?
  {
    Fixable(t.lint(src).hints)
  }

  /** What a round of this file plans. */
  function RoundPlan(t: Tool, src: Source): Plan
    requires t.lint(src).Parsed?
  {
    PlanOf(t.planner, src, FixableHints(t, src))
  }

  /** The bytes that one round tries to put in place of `src`. */
  ghost function Candidate(t: Tool, src: Source): Option<Source>
    requires t.lint(src).Parsed?
  {
    var plan := RoundPlan(t, src);
    if FixableHints(t, src) == [] || plan.PlanError? || !Fits(|src|, plan.edits) || Resolved(plan.edits) == [] then None
    else
      var c := Spliced(src, plan.edits);
      if c == src then None else Some(c)
  }

  /** What a round keeps. */
  ghost function Round(t: Tool, src: Source): Option<Source>
    requires t.lint(src).Parsed?
  {
    var c := Candidate(t, src);
    if c.Some? && Verify(t.lint(c.value), t.lint(src).warnings, t.lint(src).status) == Better then c else None
  }

  /** The files a run of at most `n` rounds passes through. */
  ghost function Versions(t: Tool, src: Source, n: nat): (r: seq<Source>)
    requires t.lint(src).Parsed?
    ensures |r| >= 1 && r[0] == src
    decreases n
  {
    if n == 0 || Round(t, src) == None then [src]
    else [src] + Versions(t, Round(t, src).value, n - 1)
  }

  // ---------------------------------------------------------------------
  // What the whole run guarantees.
  // ---------------------------------------------------------------------

  /** `b` may stand where `a` stood: no more warnings, no unfixable one gained,
      the crate clean or failing just as before. */
  ghost predicate NoWorse(a: Lint, b: Lint) {
    && a.Parsed? && b.Parsed?
    && |b.warnings| <= |a.warnings|
    && (forall k: Key :: k.0 !in FIXABLE_RULES ==> Keys(b.warnings)[k] <= Keys(a.warnings)[k])
    && (b.status == None || b.status == a.status)
  }

  lemma BetterIsNoWorse(a: Lint, b: Lint)
    requires a.Parsed? && Verify(b, a.warnings, a.status) == Better
    ensures NoWorse(a, b) && KeysOf(a) - KeysOf(b) != multiset{}
  {
    hide Keys;
    forall k: Key | k.0 !in FIXABLE_RULES
      ensures Keys(b.warnings)[k] <= Keys(a.warnings)[k]
    {
      if Keys(b.warnings)[k] > 0 {
        assert k in Keys(b.warnings);
      }
    }
  }

  /** Some warning counts less after than before. */
  ghost predicate ResolvesSome(a: Lint, b: Lint)
    requires a.Parsed? && b.Parsed?
  {
    exists k :: Keys(b.warnings)[k] < Keys(a.warnings)[k]
  }

  /** Some warning that the fixer cannot fix counts more after than before. */
  ghost predicate AddsUnfixable(a: Lint, b: Lint)
    requires a.Parsed? && b.Parsed?
  {
    exists k: Key :: k.0 !in FIXABLE_RULES && Keys(b.warnings)[k] > Keys(a.warnings)[k]
  }

  /** The verdict on a candidate that lints as `b`, put in place of a file that lints as `a`. */
  ghost predicate Deserves(a: Lint, b: Lint, v: Verdict)
    requires a.Parsed?
  {
    match v
    case NoParse => b.ParseError?
    case BrokeCrate => b.Parsed? && a.status == None && b.status.Some?
    case ChangedError => b.Parsed? && a.status.Some? && b.status.Some? && b.status.value != a.status.value
    case NothingResolved => b.Parsed? && (b.status == None || b.status == a.status) && !ResolvesSome(a, b)
    case NewUnfixable =>
      b.Parsed? && (b.status == None || b.status == a.status) && ResolvesSome(a, b) && AddsUnfixable(a, b)
    case Grew =>
      && b.Parsed? && (b.status == None || b.status == a.status) && ResolvesSome(a, b) && !AddsUnfixable(a, b)
      && |b.warnings| > |a.warnings|
    case Better => NoWorse(a, b) && ResolvesSome(a, b)
  }

  /** Each verdict is given exactly when it is deserved; a candidate passes exactly if the file is no
      worse for it and something is resolved. */
  lemma VerdictExactly(a: Lint, b: Lint, v: Verdict)
    requires a.Parsed?
    ensures Verify(b, a.warnings, a.status) == v <==> Deserves(a, b, v)
  {
    if b.Parsed? {
      VerifyInParts(a, b);
      NoWorseInParts(a, b);
      hide Verify, NoWorse;
    }
    hide Keys, ResolvesSome, AddsUnfixable;
  }

  lemma VerifyInParts(a: Lint, b: Lint)
    requires a.Parsed? && b.Parsed?
    ensures Verify(b, a.warnings, a.status) ==
      if b.status != None && a.status == None then BrokeCrate
      else if b.status != None && b.status != a.status then ChangedError
      else if !ResolvesSome(a, b) then NothingResolved
      else if AddsUnfixable(a, b) then NewUnfixable
      else if |b.warnings| > |a.warnings| then Grew
      else Better
  {
    VerdictParts(a, b);
    hide Keys, ResolvesSome, AddsUnfixable;
  }

  lemma NoWorseInParts(a: Lint, b: Lint)
    requires a.Parsed? && b.Parsed?
    ensures NoWorse(a, b) <==>
      |b.warnings| <= |a.warnings| && !AddsUnfixable(a, b) && (b.status == None || b.status == a.status)
  {
    hide Keys;
  }

  lemma VerdictParts(a: Lint, b: Lint)
    requires a.Parsed? && b.Parsed?
    ensures Keys(a.warnings) - Keys(b.warnings) == multiset{} <==> !ResolvesSome(a, b)
    ensures AddsUnfixable(a, b) <==> exists k :: k in Keys(b.warnings) && k.0 !in FIXABLE_RULES
                                               && Keys(b.warnings)[k] > Keys(a.warnings)[k]
  {
    var before, after := Keys(a.warnings), Keys(b.warnings);
    hide Keys;
    if ResolvesSome(a, b) {
      var k :| after[k] < before[k];
      assert (before - after)[k] > 0;
    } else {
      forall k
        ensures (before - after)[k] == 0
      {
      }
    }
    if AddsUnfixable(a, b) {
      var k: Key :| k.0 !in FIXABLE_RULES && after[k] > before[k];
      assert k in after;
    }
  }

  lemma RoundIsNoWorse(t: Tool, src: Source)
    requires t.lint(src).Parsed? && Round(t, src).Some?
    ensures NoWorse(t.lint(src), t.lint(Round(t, src).value))
    ensures KeysOf(t.lint(src)) - KeysOf(t.lint(Round(t, src).value)) != multiset{}
  {
    hide Candidate, Keys, KeysOf, Verify, NoWorse;
    BetterIsNoWorse(t.lint(src), t.lint(Round(t, src).value));
  }

  lemma RoundParses(t: Tool, src: Source)
    requires t.lint(src).Parsed? && Round(t, src).Some?
    ensures t.lint(Round(t, src).value).Parsed?
  {
    RoundIsNoWorse(t, src);
  }

  lemma NoWorseTransitive(a: Lint, b: Lint, c: Lint)
    requires NoWorse(a, b) && NoWorse(b, c)
    ensures NoWorse(a, c)
  {
    hide Keys;
    forall k: Key | k.0 !in FIXABLE_RULES
      ensures Keys(c.warnings)[k] <= Keys(a.warnings)[k]
    {
      assert Keys(c.warnings)[k] <= Keys(b.warnings)[k] <= Keys(a.warnings)[k];
    }
  }

  /** Every version of a run is no worse than the file it started from. */
  lemma {:induction false} RunIsNoWorse(t: Tool, src: Source, n: nat, i: nat)
    requires t.lint(src).Parsed? && i < |Versions(t, src, n)|
    ensures NoWorse(t.lint(src), t.lint(Versions(t, src, n)[i]))
    ensures |Versions(t, src, n)| <= n + 1
    decreases n
  {
    hide Round, Keys;
    if n > 0 && Round(t, src).Some? {
      RoundIsNoWorse(t, src);
      var next := Round(t, src).value;
      RunIsNoWorse(t, next, n - 1, if i == 0 then 0 else i - 1);
      if i > 0 {
        NoWorseTransitive(t.lint(src), t.lint(next), t.lint(Versions(t, src, n)[i]));
      }
    }
  }

  /** A run that stops before its last round has nothing left to do:
      running the fixer on its result changes nothing. */
  lemma {:induction false} EarlyStopIsFinal(t: Tool, src: Source, n: nat, m: nat)
    requires t.lint(src).Parsed? && |Versions(t, src, n)| <= n
    ensures var last := Versions(t, src, n)[|Versions(t, src, n)| - 1];
            t.lint(last).Parsed? && Versions(t, last, m) == [last]
    decreases n
  {
    hide Round, Keys;
    if Round(t, src).Some? {
      RoundIsNoWorse(t, src);
      EarlyStopIsFinal(t, Round(t, src).value, n - 1, m);
    }
  }

  /** The rules of a multiset of warnings, with the same multiplicities. */
  ghost function Rules(ms: multiset<Key>): multiset<string>
    decreases |ms|
  {
    if ms == multiset{} then multiset{}
    else
      Rules(ms - multiset{Pick(ms)}) + multiset{Pick(ms).0}
  }

  /** The unfolding of `Rules` along the element it happens to pick. */
  ghost function Pick(ms: multiset<Key>): (k: Key)
    requires ms != multiset{}
    ensures k in ms
  {
    var k :| k in ms; k
  }

  lemma {:induction false} RulesOfSum(ms: multiset<Key>, k: Key)
    ensures Rules(ms + multiset{k}) == Rules(ms) + multiset{k.0}
    decreases |ms|
  {
    var all := ms + multiset{k};
    var k' := Pick(all);
    if k' == k {
      assert all - multiset{k'} == ms;
    } else {
      var less := ms - multiset{k'};
      assert ms == less + multiset{k'};
      assert all - multiset{k'} == less + multiset{k};
      RulesOfSum(less, k);
      RulesOfSum(less, k');
    }
  }

  lemma {:induction false} RulesSize(ms: multiset<Key>)
    ensures |Rules(ms)| == |ms|
    decreases |ms|
  {
    if ms != multiset{} {
      RulesSize(ms - multiset{Pick(ms)});
    }
  }

  /** A round is kept exactly if its edits, spliced in, change the file, make it no worse, and resolve
      something; what is kept is the spliced file. */
  lemma RoundExactly(t: Tool, src: Source, c: Source)
    requires ValidTool(t) && t.lint(src).Parsed?
    ensures Round(t, src) == Some(c) <==>
      && FixableHints(t, src) != [] && RoundPlan(t, src).Planned? && RoundPlan(t, src).edits != []
      && Fits(|src|, RoundPlan(t, src).edits) && c == Spliced(src, RoundPlan(t, src).edits) && c != src
      && NoWorse(t.lint(src), t.lint(c)) && ResolvesSome(t.lint(src), t.lint(c))
  {
    var plan := RoundPlan(t, src);
    VerdictExactly(t.lint(src), t.lint(c), Better);
    if plan.Planned? {
      ResolvedIsEmpty(plan.edits);
      RoundFits(t, src);
    }
    hide RoundPlan, FixableHints, Verify, Spliced, Resolved, Fits, NoWorse, ResolvesSome, ValidTool;
  }

  /** Each version follows from the one before by a round that was kept. */
  ghost predicate IsRun(t: Tool, vs: seq<Source>)
  {
    && |vs| >= 1
    && (forall i :: 0 <= i < |vs| ==> t.lint(vs[i]).Parsed?)
    && (forall i :: 0 <= i < |vs| - 1 ==> Round(t, vs[i]) == Some(vs[i + 1]))
  }

  lemma {:induction false} VersionsAreRun(t: Tool, src: Source, n: nat)
    requires t.lint(src).Parsed?
    ensures IsRun(t, Versions(t, src, n))
    decreases n
  {
    hide Round, Keys, NoWorse;
    if n > 0 && Round(t, src).Some? {
      RoundParses(t, src);
      var rest := Versions(t, Round(t, src).value, n - 1);
      VersionsAreRun(t, Round(t, src).value, n - 1);
      var vs := Versions(t, src, n);
      forall i | 0 <= i < |vs| - 1
        ensures Round(t, vs[i]) == Some(vs[i + 1])
      {
        if i > 0 {
          assert vs[i] == rest[i - 1];
        }
      }
    }
  }

  /** The warnings resolved between consecutive versions, by rule. */
  ghost function ResolvedRules(t: Tool, vs: seq<Source>): multiset<string>
    requires forall i :: 0 <= i < |vs| ==> t.lint(vs[i]).Parsed?
  {
    if |vs| <= 1 then multiset{}
    else
      var n := |vs|;
      ResolvedRules(t, vs[..n - 1]) + Rules(KeysOf(t.lint(vs[n - 2])) - KeysOf(t.lint(vs[n - 1])))
  }

  /** The reported total is at least the number of rounds kept, and at least the net drop in warnings. */
  lemma {:induction false} ReportedTotal(t: Tool, vs: seq<Source>)
    requires IsRun(t, vs)
    ensures |ResolvedRules(t, vs)| >= |vs| - 1
    ensures |ResolvedRules(t, vs)| >= |t.lint(vs[0]).warnings| - |t.lint(vs[|vs| - 1]).warnings|
    decreases |vs|
  {
    hide Round, Keys, NoWorse, KeysOf, Rules;
    if |vs| > 1 {
      var n := |vs|;
      ReportedTotal(t, vs[..n - 1]);
      RoundIsNoWorse(t, vs[n - 2]);
      var a, b := t.lint(vs[n - 2]), t.lint(vs[n - 1]);
      RulesSize(KeysOf(a) - KeysOf(b));
      KeysSize(a);
      KeysSize(b);
      assert |KeysOf(a) - KeysOf(b)| >= |KeysOf(a)| - |KeysOf(b)|;
      assert |KeysOf(a) - KeysOf(b)| >= 1;
    }
  }

  // ---------------------------------------------------------------------
  // What is counted as fixed.
  // ---------------------------------------------------------------------

  /** The positions of the warnings of a rule. */
  ghost function OfRule(ws: seq<Warning>, rule: string): set<nat> {
    set i: nat | i < |ws| && ws[i].rule == rule
  }

  lemma {:induction false} RulesCount(ws: seq<Warning>, rule: string)
    ensures Rules(Keys(ws))[rule] == |OfRule(ws, rule)|
  {
    hide Rules, Keys;
    if ws == [] {
      assert OfRule(ws, rule) == {};
      NoRules();
    } else {
      var front, last := ws[..|ws| - 1], ws[|ws| - 1];
      RulesCount(front, rule);
      KeysSnoc(front, last);
      assert ws == front + [last];
      RulesOfSum(Keys(front), (last.rule, last.message));
      assert OfRule(ws, rule) == OfRule(front, rule) + if last.rule == rule then {|front|} else {};
    }
  }

  lemma NoRules()
    ensures Rules(multiset{}) == multiset{} && Keys([]) == multiset{}
  {
  }

  lemma {:induction false} RulesAdd(a: multiset<Key>, b: multiset<Key>)
    ensures Rules(a + b) == Rules(a) + Rules(b)
    decreases |b|
  {
    hide Rules;
    NoRules();
    if b == multiset{} {
      assert a + b == a;
    } else {
      var k :| k in b;
      var less := b - multiset{k};
      assert b == less + multiset{k} && a + b == (a + less) + multiset{k};
      RulesAdd(a, less);
      RulesOfSum(less, k);
      RulesOfSum(a + less, k);
    }
  }

  /** Of each rule, what was resolved and what is left is what was there and what appeared. */
  lemma NetDrop(a: Lint, b: Lint, rule: string)
    requires a.Parsed? && b.Parsed?
    ensures Rules(KeysOf(a) - KeysOf(b))[rule] + |OfRule(b.warnings, rule)| ==
      Rules(KeysOf(b) - KeysOf(a))[rule] + |OfRule(a.warnings, rule)|
  {
    var x, y := KeysOf(a), KeysOf(b);
    RulesCount(a.warnings, rule);
    RulesCount(b.warnings, rule);
    hide Rules, Keys;
    assert x == (x - y) + (x * y) && y == (y - x) + (x * y);
    RulesAdd(x - y, x * y);
    RulesAdd(y - x, x * y);
  }

  /** The warnings that appeared between consecutive versions, by rule. */
  ghost function AppearedRules(t: Tool, vs: seq<Source>): multiset<string>
    requires forall i :: 0 <= i < |vs| ==> t.lint(vs[i]).Parsed?
  {
    if |vs| <= 1 then multiset{}
    else
      var n := |vs|;
      AppearedRules(t, vs[..n - 1]) + Rules(KeysOf(t.lint(vs[n - 1])) - KeysOf(t.lint(vs[n - 2])))
  }

  /** The report balances: of each rule, the warnings counted as fixed and those left in the result are
      together those of the original and those that appeared on the way. */
  lemma {:induction false} ReportBalances(t: Tool, vs: seq<Source>, rule: string)
    requires IsRun(t, vs)
    ensures ResolvedRules(t, vs)[rule] + |OfRule(t.lint(vs[|vs| - 1]).warnings, rule)| ==
      AppearedRules(t, vs)[rule] + |OfRule(t.lint(vs[0]).warnings, rule)|
    decreases |vs|
  {
    hide Round, Keys, NoWorse, KeysOf, Rules, OfRule;
    if |vs| > 1 {
      var n := |vs|;
      ReportBalances(t, vs[..n - 1], rule);
      NetDrop(t.lint(vs[n - 2]), t.lint(vs[n - 1]), rule);
    }
  }

  // ---------------------------------------------------------------------
  // The loop.
  // ---------------------------------------------------------------------

  lemma OneMore(ms: multiset<string>, r: string, n: nat)
    ensures ms + multiset{}[r := n] + multiset{r} == ms + multiset{}[r := n + 1]
  {
  }

  lemma {:induction false} RulesWithout(ms: multiset<Key>, k: Key)
    ensures Rules(ms) == Rules(ms[k := 0]) + multiset{}[k.0 := ms[k]]
    decreases ms[k]
  {
    hide Rules;
    if k in ms {
      var less := ms - multiset{k};
      RulesWithout(less, k);
      assert ms == less + multiset{k} && less[k := 0] == ms[k := 0];
      RulesOfSum(less, k);
      OneMore(Rules(ms[k := 0]), k.0, less[k]);
    } else {
      assert ms[k := 0] == ms;
    }
  }

  /** The counter update at the end of a round. */
  method CountRules(fixed: multiset<string>, resolved: multiset<Key>) returns (r: multiset<string>)
    ensures r == fixed + Rules(resolved)
  {
    r := fixed;
    var todo := resolved;
    while todo != multiset{}
      invariant r + Rules(todo) == fixed + Rules(resolved)
      decreases |todo|
    {
      var k :| k in todo;
      RulesWithout(todo, k);
      r := r[k.0 := r[k.0] + todo[k]];
      assert |todo[k := 0]| < |todo|;
      todo := todo[k := 0];
    }
  }

  datatype Report =
    | Failed(error: string)
    | Report(fixed: multiset<string>, skipped: seq<Skip>, rounds: nat, changed: bool)

  function SkipAll(hints: seq<Hint>, why: Why): seq<Skip> {
    seq(|hints|, i requires 0 <= i < |hints| => Skip(hints[i].rule, hints[i].line, why))
  }

  function SkipEdits(edits: seq<Edit>): seq<Skip> {
    seq(|edits|, i requires 0 <= i < |edits| => Skip(edits[i].rule, edits[i].line, Subsumed))
  }

  // ---------------------------------------------------------------------
  // The skip report.
  // ---------------------------------------------------------------------

  /** What a round of this file reports: the hints the locators gave up on, the edits dropped
      for an overlap, and all its hints if planning failed or the result was rolled back. */
  ghost function RoundSkips(t: Tool, src: Source): seq<Skip>
    requires t.lint(src).Parsed?
  {
    var fixable := FixableHints(t, src);
    if fixable == [] then []
    else if RoundPlan(t, src).PlanError? then SkipAll(fixable, PlanningFailed)
    else PlanSkips(t, src) + RolledBackSkips(t, src)
  }

  /** The hints not located, and the edits dropped for an overlap. */
  ghost function PlanSkips(t: Tool, src: Source): seq<Skip>
    requires t.lint(src).Parsed? && RoundPlan(t, src).Planned?
  {
    RoundPlan(t, src).skips + SkipEdits(Dropped(RoundPlan(t, src).edits))
  }

  ghost function RolledBackSkips(t: Tool, src: Source): seq<Skip>
    requires t.lint(src).Parsed?
  {
    var lint, c := t.lint(src), Candidate(t, src);
    if c == None then []
    else
      var verdict := Verify(t.lint(c.value), lint.warnings, lint.status);
      if verdict == Better then [] else SkipAll(FixableHints(t, src), RolledBack(verdict))
  }

  ghost function AllSkips(t: Tool, vs: seq<Source>): seq<Skip>
    requires forall i :: 0 <= i < |vs| ==> t.lint(vs[i]).Parsed?
  {
    if vs == [] then [] else AllSkips(t, vs[..|vs| - 1]) + RoundSkips(t, vs[|vs| - 1])
  }

  /** The round's edits change nothing, so it gives up without rolling anything back. */
  ghost predicate ChangesNothing(t: Tool, src: Source)
    requires t.lint(src).Parsed?
  {
    var plan := RoundPlan(t, src);
    plan.Planned? && Fits(|src|, plan.edits) && Resolved(plan.edits) != [] && Spliced(src, plan.edits) == src
  }

  lemma SkipAllAt(hints: seq<Hint>, why: Why, i: nat)
    requires i < |hints|
    ensures Skip(hints[i].rule, hints[i].line, why) in SkipAll(hints, why)
  {
    assert SkipAll(hints, why)[i] in SkipAll(hints, why);
  }

  lemma DroppedIsReported(edits: seq<Edit>, e: Edit)
    requires e in edits && e !in Resolved(edits)
    ensures Skip(e.rule, e.line, Subsumed) in SkipEdits(Dropped(edits))
  {
    KeptOrDropped(edits);
    var dropped := Dropped(edits);
    assert e in multiset(edits) && e !in multiset(Resolved(edits));
    assert e in multiset(dropped);
    var i :| 0 <= i < |dropped| && dropped[i] == e;
    assert SkipEdits(dropped)[i] in SkipEdits(dropped);
  }

  /** What became of the fixable hint number `i` in a round that reported `skips`.  If planning failed
      or its strategy gave up, that is reported under its own rule and line.  Otherwise its strategy gave
      edits, each of which was kept or is reported as subsumed, under the rule and line it carries; and
      the round was kept, or its edits change nothing, or the hint is reported as rolled back. */
  ghost predicate Answered(t: Tool, src: Source, i: nat, skips: seq<Skip>)
    requires t.lint(src).Parsed? && i < |FixableHints(t, src)|
  {
    var h, plan := FixableHints(t, src)[i], RoundPlan(t, src);
    var location := LocationOf(t.planner, src, FixableHints(t, src), i);
    if plan.PlanError? then Skip(h.rule, h.line, PlanningFailed) in skips
    else if location.NotHere? then Skip(h.rule, h.line, NotLocated) in skips
    else
      && location.edits != []
      && (forall e :: e in location.edits ==>
            e in plan.edits && (e in Resolved(plan.edits) || Skip(e.rule, e.line, Subsumed) in skips))
      && (Round(t, src).Some? || ChangesNothing(t, src) ||
          exists v :: v != Better && Skip(h.rule, h.line, RolledBack(v)) in skips)
  }

  lemma NotLocatedIsReported(t: Tool, src: Source, i: nat)
    requires t.lint(src).Parsed? && i < |FixableHints(t, src)| && RoundPlan(t, src).Planned?
    requires LocationOf(t.planner, src, FixableHints(t, src), i).NotHere?
    ensures var h := FixableHints(t, src)[i]; Skip(h.rule, h.line, NotLocated) in RoundPlan(t, src).skips
  {
    var hints := FixableHints(t, src);
    var s := Skip(hints[i].rule, hints[i].line, NotLocated);
    assert SkipFor(t.planner, src, hints, i, s);
    hide SkipFor;
    PlanAnswersExactly(t.planner, src, hints);
  }

  lemma LocatedIsPlanned(t: Tool, src: Source, i: nat, e: Edit)
    requires t.lint(src).Parsed? && i < |FixableHints(t, src)| && RoundPlan(t, src).Planned?
    requires EditFor(t.planner, src, FixableHints(t, src), i, e)
    ensures e in RoundPlan(t, src).edits
  {
    hide EditFor;
    PlanAnswersExactly(t.planner, src, FixableHints(t, src));
  }

  /** The parts of a round's report. */
  lemma ReportParts(t: Tool, src: Source)
    requires t.lint(src).Parsed? && FixableHints(t, src) != [] && RoundPlan(t, src).Planned?
    ensures forall s :: s in RoundPlan(t, src).skips ==> s in RoundSkips(t, src)
    ensures forall s :: s in SkipEdits(Dropped(RoundPlan(t, src).edits)) ==> s in RoundSkips(t, src)
    ensures forall s :: s in RolledBackSkips(t, src) ==> s in RoundSkips(t, src)
  {
    hide RoundPlan, SkipEdits, RolledBackSkips, FixableHints;
  }

  lemma RoundFits(t: Tool, src: Source)
    requires ValidTool(t) && t.lint(src).Parsed? && RoundPlan(t, src).Planned?
    ensures Fits(|src|, RoundPlan(t, src).edits)
  {
    PlanFits(t.planner, src, FixableHints(t, src));
  }

  lemma RollsBack(t: Tool, src: Source, i: nat)
    requires ValidTool(t) && t.lint(src).Parsed? && i < |FixableHints(t, src)|
    requires RoundPlan(t, src).Planned? && RoundPlan(t, src).edits != []
    requires Round(t, src) == None && !ChangesNothing(t, src)
    ensures var h := FixableHints(t, src)[i];
      exists v :: v != Better && Skip(h.rule, h.line, RolledBack(v)) in RolledBackSkips(t, src)
  {
    RoundFits(t, src);
    ResolvedIsEmpty(RoundPlan(t, src).edits);
    hide RoundPlan, FixableHints, Verify, Spliced, Resolved, SkipAll, Fits;
    var lint, c := t.lint(src), Candidate(t, src).value;
    SkipAllAt(FixableHints(t, src), RolledBack(Verify(t.lint(c), lint.warnings, lint.status)), i);
  }

  /** No skip is silent: every fixable hint of a round is answered by what the round reports. */
  lemma NoSkipIsSilent(t: Tool, src: Source, i: nat)
    requires ValidTool(t) && t.lint(src).Parsed? && i < |FixableHints(t, src)|
    ensures Answered(t, src, i, RoundSkips(t, src))
  {
    var hints, plan := FixableHints(t, src), RoundPlan(t, src);
    var location := LocationOf(t.planner, src, hints, i);
    if plan.PlanError? {
      SkipAllAt(hints, PlanningFailed, i);
    } else {
      ReportParts(t, src);
      LocationFits(t.planner, src, hints, i);
      hide Round, RoundSkips, RolledBackSkips, ChangesNothing, RoundPlan, Resolved, FixableHints, Fits;
      if location.NotHere? {
        NotLocatedIsReported(t, src, i);
      } else {
        forall e | e in location.edits
          ensures e in plan.edits && (e in Resolved(plan.edits) || Skip(e.rule, e.line, Subsumed) in RoundSkips(t, src))
        {
          LocatedIsPlanned(t, src, i, e);
          if e !in Resolved(plan.edits) {
            DroppedIsReported(plan.edits, e);
          }
        }
        if Round(t, src) == None && !ChangesNothing(t, src) {
          assert location.edits[0] in plan.edits;
          RollsBack(t, src, i);
        }
      }
    }
  }

  /** Every version is tried, except the last when nothing fixable is left in it or eight rounds
      have been kept. */
  ghost function RoundsTried(t: Tool, vs: seq<Source>): (n: nat)
    requires vs != [] && t.lint(vs[|vs| - 1]).Parsed?
    ensures |vs| - 1 <= n <= |vs|
  {
    if |vs| <= MAX_ROUNDS && Fixable(t.lint(vs[|vs| - 1]).hints) != [] then |vs| else |vs| - 1
  }

  lemma NothingFixable(t: Tool, src: Source)
    requires t.lint(src).Parsed? && Fixable(t.lint(src).hints) == []
    ensures Round(t, src) == None
  {
  }

  lemma NoWarnings(t: Tool, src: Source)
    requires ValidTool(t) && t.lint(src).Parsed? && t.lint(src).warnings == []
    ensures Round(t, src) == None && Fixable(t.lint(src).hints) == []
  {
  }

  lemma RoundsAreTried(t: Tool, vs: seq<Source>, rounds: nat)
    requires vs != [] && t.lint(vs[|vs| - 1]).Parsed?
    requires var fixable := Fixable(t.lint(vs[|vs| - 1]).hints);
      || (rounds == |vs| <= MAX_ROUNDS && fixable != [])
      || (rounds == |vs| - 1 && (rounds == MAX_ROUNDS || fixable == []))
    ensures rounds == RoundsTried(t, vs)
  {
  }

  /** The loop has reached `src` after the versions in `front`, with `k` rounds to go. */
  ghost predicate OnTrack(t: Tool, orig: Source, front: seq<Source>, src: Source, k: nat)
  {
    && t.lint(orig).Parsed? && t.lint(src).Parsed?
    && Versions(t, orig, MAX_ROUNDS) == front + Versions(t, src, k)
  }

  lemma TrackStep(t: Tool, orig: Source, front: seq<Source>, src: Source, k: nat)
    requires OnTrack(t, orig, front, src, k) && k > 0 && Round(t, src).Some?
    ensures OnTrack(t, orig, front + [src], Round(t, src).value, k - 1)
  {
    hide Round, Keys, NoWorse;
    RoundParses(t, src);
    var next := Round(t, src).value;
    assert Versions(t, src, k) == [src] + Versions(t, next, k - 1);
    assert front + ([src] + Versions(t, next, k - 1)) == front + [src] + Versions(t, next, k - 1);
  }

  lemma TrackEnds(t: Tool, orig: Source, front: seq<Source>, src: Source, k: nat)
    requires OnTrack(t, orig, front, src, k) && (k == 0 || Round(t, src) == None)
    ensures Versions(t, orig, MAX_ROUNDS) == front + [src] && IsRun(t, front + [src])
  {
    hide Round, Keys, IsRun;
    VersionsAreRun(t, orig, MAX_ROUNDS);
  }

  /** The counters agree with the warnings resolved so far. */
  ghost predicate Counted(t: Tool, vs: seq<Source>, fixed: multiset<string>) {
    (forall i :: 0 <= i < |vs| ==> t.lint(vs[i]).Parsed?) && fixed == ResolvedRules(t, vs)
  }

  lemma CountStep(t: Tool, front: seq<Source>, src: Source, fixed: multiset<string>, next: Source)
    requires Counted(t, front + [src], fixed) && t.lint(next).Parsed?
    ensures Counted(t, front + [src] + [next], fixed + Rules(KeysOf(t.lint(src)) - KeysOf(t.lint(next))))
  {
    hide Rules, KeysOf;
    var vs := front + [src] + [next];
    assert vs[..|vs| - 1] == front + [src];
  }

  lemma RunStarts(t: Tool, orig: Source)
    requires t.lint(orig).Parsed?
    ensures OnTrack(t, orig, [], orig, MAX_ROUNDS) && Counted(t, [] + [orig], multiset{})
  {
  }

  lemma CountEnds(t: Tool, vs: seq<Source>, fixed: multiset<string>)
    requires IsRun(t, vs) && Counted(t, vs, fixed)
    ensures (forall i :: 0 <= i < |vs| ==> t.lint(vs[i]).Parsed?) && fixed == ResolvedRules(t, vs)
  {
  }

  /** The report so far is that of the rounds tried. */
  ghost predicate SkippedSoFar(t: Tool, tried: seq<Source>, skipped: seq<Skip>) {
    (forall i :: 0 <= i < |tried| ==> t.lint(tried[i]).Parsed?) && skipped == AllSkips(t, tried)
  }

  lemma SkipStart(t: Tool)
    ensures SkippedSoFar(t, [], [])
  {
  }

  lemma SkipStep(t: Tool, tried: seq<Source>, src: Source, skipped: seq<Skip>)
    requires SkippedSoFar(t, tried, skipped) && t.lint(src).Parsed?
    ensures SkippedSoFar(t, tried + [src], skipped + RoundSkips(t, src))
  {
    hide RoundSkips;
    assert (tried + [src])[..|tried|] == tried;
  }

  lemma SkipEnd(t: Tool, vs: seq<Source>, tried: seq<Source>, rounds: nat, skipped: seq<Skip>)
    requires SkippedSoFar(t, tried, skipped) && rounds == |tried| <= |vs| && tried <= vs
    ensures vs[..rounds] == tried && (forall i :: 0 <= i < |tried| ==> t.lint(tried[i]).Parsed?)
    ensures skipped == AllSkips(t, vs[..rounds])
  {
    hide AllSkips;
    assert vs[..rounds] == tried;
  }

  lemma KeptStep(t: Tool, orig: Source, front: seq<Source>, src: Source, k: nat, fixed: multiset<string>)
    requires OnTrack(t, orig, front, src, k) && k > 0 && Counted(t, front + [src], fixed) && Round(t, src).Some?
    ensures var next := Round(t, src).value;
      && t.lint(next).Parsed? && OnTrack(t, orig, front + [src], next, k - 1)
      && Counted(t, front + [src] + [next], fixed + Rules(KeysOf(t.lint(src)) - KeysOf(t.lint(next))))
  {
    assert t.lint(src).Parsed?;
    hide *;
    RoundParses(t, src);
    CountStep(t, front, src, fixed, Round(t, src).value);
    TrackStep(t, orig, front, src, k);
  }

  lemma ReportEnds(t: Tool, vs: seq<Source>, tried: seq<Source>, rounds: nat, skipped: seq<Skip>,
                   fixed: multiset<string>)
    requires IsRun(t, vs) && Counted(t, vs, fixed)
    requires SkippedSoFar(t, tried, skipped) && rounds == |tried| <= |vs| && tried <= vs
    ensures (forall i :: 0 <= i < |vs| ==> t.lint(vs[i]).Parsed?) && fixed == ResolvedRules(t, vs)
    ensures skipped == AllSkips(t, vs[..rounds])
  {
    hide *;
    CountEnds(t, vs, fixed);
    SkipEnd(t, vs, tried, rounds, skipped);
  }

  /** The whole run. */
  method FixSource(t: Tool, orig: Source) returns (src: Source, report: Report, ghost vs: seq<Source>)
    requires ValidTool(t)
    ensures t.lint(orig).ParseError? ==> src == orig && report == Failed(t.lint(orig).msg)
    ensures t.lint(orig).Parsed? ==>
              && vs == Versions(t, orig, MAX_ROUNDS) && src == vs[|vs| - 1]
              && IsRun(t, vs)
              && report.Report? && report.changed == (src != orig)
              && report.fixed == ResolvedRules(t, vs)
              && report.rounds == RoundsTried(t, vs) && report.rounds <= MAX_ROUNDS
              && report.skipped == AllSkips(t, vs[..report.rounds])
  {
    hide *;
    src, vs := orig, [];
    var lint := t.lint(src);
    if lint.ParseError? {
      report := Failed(lint.msg);
      return;
    }
    var warnings, hints, status := lint.warnings, lint.hints, lint.status;
    var fixed, skipped, rounds := multiset{}, [], 0;
    ghost var k := MAX_ROUNDS;
    ghost var front := [];
    RunStarts(t, orig);
    SkipStart(t);
    ghost var tried := front;
    for i := 0 to MAX_ROUNDS
      invariant tried == front
      invariant k == MAX_ROUNDS - i && rounds == i == |front|
      invariant t.lint(src) == Parsed(warnings, hints, status)
      invariant OnTrack(t, orig, front, src, k)
      invariant Counted(t, front + [src], fixed)
      invariant SkippedSoFar(t, front, skipped)
    {
      var fixable := Fixable(hints);
      if fixable == [] {
        NothingFixable(t, src);
        break;
      }
      rounds := rounds + 1;
      var next, skip := TryRound(t, src, fixable, Parsed(warnings, hints, status));
      SkipStep(t, front, src, skipped);
      skipped, tried := skipped + skip, front + [src];
      if next == None {
        break;
      }
      var newLint := t.lint(next.value);
      KeptStep(t, orig, front, src, k, fixed);
      fixed := CountRules(fixed, KeysOf(t.lint(src)) - KeysOf(newLint));
      front, k := front + [src], k - 1;
      src := next.value;
      warnings, hints, status := newLint.warnings, newLint.hints, newLint.status;
      if warnings == [] {
        NoWarnings(t, src);
        break;
      }
    }
    TrackEnds(t, orig, front, src, k);
    vs := front + [src];
    RoundsAreTried(t, vs, rounds);
    ReportEnds(t, vs, tried, rounds, skipped, fixed);
    report := Report(fixed, skipped, rounds, src != orig);
  }

  lemma RoundCases(t: Tool, src: Source)
    requires t.lint(src).Parsed?
    ensures var fixable := FixableHints(t, src);
            var plan := RoundPlan(t, src);
            && (fixable != [] && plan.PlanError? ==> RoundSkips(t, src) == SkipAll(fixable, PlanningFailed))
            && (fixable != [] && plan.Planned? && Resolved(plan.edits) == [] ==>
                  RoundSkips(t, src) == plan.skips + SkipEdits(Dropped(plan.edits)))
            && (fixable != [] && plan.Planned? && Fits(|src|, plan.edits) && Resolved(plan.edits) != [] ==>
                  var c := Spliced(src, plan.edits);
                  var verdict := Verify(t.lint(c), t.lint(src).warnings, t.lint(src).status);
                  RoundSkips(t, src) == plan.skips + SkipEdits(Dropped(plan.edits)) +
                    if c == src || verdict == Better then [] else SkipAll(fixable, RolledBack(verdict)))
            && (fixable == [] || plan.PlanError? || Resolved(plan.edits) == [] ==> Round(t, src) == None)
            && (fixable != [] && plan.Planned? && Fits(|src|, plan.edits) && Resolved(plan.edits) != [] ==>
                  var c := Spliced(src, plan.edits);
                  Round(t, src) ==
                    if c == src || Verify(t.lint(c), t.lint(src).warnings, t.lint(src).status) != Better then None
                    else Some(c))
  {
    hide Spliced, Resolved, Dropped, Verify, Fits, FixableHints, RoundPlan, SkipAll, SkipEdits;
  }

  lemma PlanOfRound(t: Tool, src: Source)
    requires t.lint(src).Parsed?
    ensures FixableHints(t, src) == Fixable(t.lint(src).hints)
    ensures RoundPlan(t, src) == PlanOf(t.planner, src, FixableHints(t, src))
  {
  }

  /** Plan, splice and verify: the part of a round that may give up. */
  method TryRound(t: Tool, src: Source, fixable: seq<Hint>, lint: Lint)
    returns (next: Option<Source>, skipped: seq<Skip>)
    requires ValidTool(t) && lint.Parsed? && t.lint(src) == lint
    requires fixable == Fixable(lint.hints) && fixable != []
    ensures next == Round(t, src) && skipped == RoundSkips(t, src)
  {
    hide *;
    RoundCases(t, src);
    PlanOfRound(t, src);
    var plan := PlanHints(t.planner, src, fixable);
    if plan.PlanError? {
      return None, SkipAll(fixable, PlanningFailed);
    }
    RoundFits(t, src);
    ResolvedIsOrdered(|src|, plan.edits);
    var edits, overlapping := ResolveOverlaps(plan.edits);
    skipped := plan.skips + SkipEdits(overlapping);
    if edits == [] {
      return None, skipped;
    }
    SplicedIs(src, plan.edits);
    var candidate := Apply(src, edits);
    if candidate == src {
      return None, skipped;
    }
    var verdict := Verify(t.lint(candidate), lint.warnings, lint.status);
    if verdict != Better {
      return None, skipped + SkipAll(fixable, RolledBack(verdict));
    }
    return Some(candidate), skipped;
  }

  lemma SplicedIs(src: Source, edits: seq<Edit>)
    requires Fits(|src|, edits)
    ensures Ordered(|src|, 0, LeftToRight(Resolved(edits)))
    ensures Spliced(src, edits) == Substitute(src, 0, LeftToRight(Resolved(edits)))
  {
    ResolvedIsOrdered(|src|, edits);
  }
}
