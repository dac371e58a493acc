/** Planning a round of the fixer: from hints to edits and skips, one hint at a time. */
module FixPlan {
  import Decimal
  import opened SourceText
  import opened Splice

  datatype Hint = Hint(rule: string, line: nat, payload: nat)

  datatype Verdict = Better | NoParse | BrokeCrate | ChangedError | NothingResolved | NewUnfixable | Grew

  datatype Why = NotLocated | Subsumed | PlanningFailed | RolledBack(verdict: Verdict)
  datatype Skip = Skip(rule: string, line: nat, why: Why)

  /** What a strategy makes of one hint: edits, or a refusal to guess. */
  datatype Location = Located(edits: seq<Edit>) | NotHere

  /** Whether the file has tokens at all, and the strategies, as functions of the file's bytes.  The text
      is the name to which a strategy would bind a discarded result. */
  datatype Planner = Planner(lexes: Source -> bool, planOne: (Source, Hint, Text) -> Location)

  datatype Plan = PlanError | Planned(edits: seq<Edit>, skips: seq<Skip>)

  /** A hint that is located has at least one edit, and its spans lie within the file. */
  ghost predicate ValidPlanner(p: Planner) {
    forall src, h, name ::
      p.planOne(src, h, name).Located? ==>
        p.planOne(src, h, name).edits != [] && Fits(|src|, p.planOne(src, h, name).edits)
  }

  // ---------------------------------------------------------------------
  // The names of discarded results.
  // ---------------------------------------------------------------------

  function Wraps(hints: seq<Hint>): nat {
    if hints == [] then 0
    else Wraps(hints[..|hints| - 1]) + if hints[|hints| - 1].rule == "L004" then 1 else 0
  }

  function DiscardName(n: nat): Text {
    "_ignored" + if n == 1 then "" else Decimal.Print(n)
  }

  function DiscardFor(hints: seq<Hint>, i: nat): Text
    requires i < |hints|
  {
    DiscardName(if hints[i].rule == "L004" then Wraps(hints[..i + 1]) else 1)
  }

  lemma DiscardNameTells(m: nat, n: nat)
    requires m != n
    ensures DiscardName(m) != DiscardName(n)
  {
    Decimal.PrintParse(m);
    Decimal.PrintParse(n);
    assert DiscardName(m)[|"_ignored"|..] == if m == 1 then "" else Decimal.Print(m);
    assert DiscardName(n)[|"_ignored"|..] == if n == 1 then "" else Decimal.Print(n);
  }

  lemma {:induction false} WrapsGrow(hints: seq<Hint>, i: nat, j: nat)
    requires i <= j <= |hints|
    ensures Wraps(hints[..i]) <= Wraps(hints[..j])
    decreases j
  {
    if i < j {
      WrapsGrow(hints, i, j - 1);
      assert hints[..j][..j - 1] == hints[..j - 1];
    }
  }

  /** The hints up to the `i`-th whose result is bound to a name. */
  ghost function Wrapping(hints: seq<Hint>, i: nat): set<nat>
    requires i <= |hints|
  {
    set j: nat | j < i && hints[j].rule == "L004"
  }

  lemma {:induction false} WrapsAreCounted(hints: seq<Hint>, i: nat)
    requires i <= |hints|
    ensures Wraps(hints[..i]) == |Wrapping(hints, i)|
  {
    if i > 0 {
      WrapsAreCounted(hints, i - 1);
      assert hints[..i][..i - 1] == hints[..i - 1];
      assert Wrapping(hints, i) ==
        Wrapping(hints, i - 1) + if hints[i - 1].rule == "L004" then {i - 1} else {};
    } else {
      assert Wrapping(hints, 0) == {};
    }
  }

  /** A round's first discarded result is bound to `_ignored`, its n-th to `_ignored` followed by n. */
  lemma DiscardIsNumbered(hints: seq<Hint>, i: nat)
    requires i < |hints| && hints[i].rule == "L004"
    ensures var n := |Wrapping(hints, i + 1)|;
      DiscardFor(hints, i) == "_ignored" + if n == 1 then "" else Decimal.Print(n)
  {
    WrapsAreCounted(hints, i + 1);
  }

  /** No two discarded results of a round are bound to one name. */
  lemma DiscardsDiffer(hints: seq<Hint>, i: nat, j: nat)
    requires i < j < |hints| && hints[i].rule == "L004" && hints[j].rule == "L004"
    ensures DiscardFor(hints, i) != DiscardFor(hints, j)
  {
    WrapsGrow(hints, i + 1, j);
    assert hints[..j + 1][..j] == hints[..j];
    DiscardNameTells(Wraps(hints[..i + 1]), Wraps(hints[..j + 1]));
  }

  // ---------------------------------------------------------------------
  // The plan of a round.
  // ---------------------------------------------------------------------

  function LocationOf(p: Planner, src: Source, hints: seq<Hint>, i: nat): Location
    requires i < |hints|
  {
    p.planOne(src, hints[i], DiscardFor(hints, i))
  }

  function EditsOf(p: Planner, src: Source, hints: seq<Hint>): seq<Edit> {
    if hints == [] then []
    else
      var location := LocationOf(p, src, hints, |hints| - 1);
      EditsOf(p, src, hints[..|hints| - 1]) + if location.Located? then location.edits else []
  }

  function SkipsOf(p: Planner, src: Source, hints: seq<Hint>): seq<Skip> {
    if hints == [] then []
    else
      var h := hints[|hints| - 1];
      SkipsOf(p, src, hints[..|hints| - 1]) +
      if LocationOf(p, src, hints, |hints| - 1).Located? then [] else [Skip(h.rule, h.line, NotLocated)]
  }

  function PlanOf(p: Planner, src: Source, hints: seq<Hint>): Plan {
    if p.lexes(src) then Planned(EditsOf(p, src, hints), SkipsOf(p, src, hints)) else PlanError
  }

  lemma LocationInPrefix(p: Planner, src: Source, hints: seq<Hint>, i: nat, j: nat)
    requires i < j <= |hints|
    ensures LocationOf(p, src, hints[..j], i) == LocationOf(p, src, hints, i)
  {
    assert hints[..j][..i + 1] == hints[..i + 1];
  }

  /** The loop of `_plan` before overlaps are resolved. */
  method PlanHints(p: Planner, src: Source, hints: seq<Hint>) returns (plan: Plan)
    ensures plan == PlanOf(p, src, hints)
  {
    if !p.lexes(src) {
      return PlanError;
    }
    var edits, skips, wraps := [], [], 0;
    for i := 0 to |hints|
      invariant edits == EditsOf(p, src, hints[..i]) && skips == SkipsOf(p, src, hints[..i])
      invariant wraps == Wraps(hints[..i])
    {
      var h := hints[i];
      assert hints[..i + 1][..i] == hints[..i];
      LocationInPrefix(p, src, hints, i, i + 1);
      var location;
      if h.rule == "L004" {
        wraps := wraps + 1;
        location := p.planOne(src, h, DiscardName(wraps));
      } else {
        assert DiscardName(1) == "_ignored";
        location := p.planOne(src, h, "_ignored");
      }
      match location
      case Located(es) => edits := edits + es;
      case NotHere => skips := skips + [Skip(h.rule, h.line, NotLocated)];
    }
    assert hints[..|hints|] == hints;
    plan := Planned(edits, skips);
  }

  /** The edit is one that the strategy gave for hint `i`. */
  ghost predicate EditFor(p: Planner, src: Source, hints: seq<Hint>, i: nat, e: Edit)
    requires i < |hints|
  {
    LocationOf(p, src, hints, i).Located? && e in LocationOf(p, src, hints, i).edits
  }

  /** The skip is that of hint `i`, which was not located, under its own rule and line. */
  ghost predicate SkipFor(p: Planner, src: Source, hints: seq<Hint>, i: nat, s: Skip)
    requires i < |hints|
  {
    LocationOf(p, src, hints, i).NotHere? && s == Skip(hints[i].rule, hints[i].line, NotLocated)
  }

  /** `all` is the answers put one after the other: answer `i` stands between `cuts[i]` and `cuts[i + 1]`. */
  ghost predicate Strung<T(!new)>(answers: seq<seq<T>>, all: seq<T>, cuts: seq<nat>) {
    && |cuts| == |answers| + 1 && cuts[0] == 0 && cuts[|answers|] == |all|
    && forall i :: 0 <= i < |answers| ==> AnswerStands(answers, all, cuts, i)
  }

  ghost predicate AnswerStands<T(!new)>(answers: seq<seq<T>>, all: seq<T>, cuts: seq<nat>, i: nat)
    requires i < |answers| && |cuts| == |answers| + 1
  {
    cuts[i] <= cuts[i + 1] <= |all| && all[cuts[i]..cuts[i + 1]] == answers[i]
  }

  ghost predicate InOrder<T(!new)>(answers: seq<seq<T>>, all: seq<T>) {
    exists cuts :: Strung(answers, all, cuts)
  }

  lemma InOrderNone<T(!new)>()
    ensures InOrder<T>([], [])
  {
    var cuts: seq<nat> := [0];
    assert Strung<T>([], [], cuts);
  }

  lemma InOrderSnoc<T(!new)>(answers: seq<seq<T>>, all: seq<T>, more: seq<T>)
    requires InOrder(answers, all)
    ensures InOrder(answers + [more], all + more)
  {
    var cuts: seq<nat> :| Strung(answers, all, cuts);
    var longer := cuts + [|all| + |more|];
    var n := |answers|;
    forall i | 0 <= i < n + 1
      ensures AnswerStands(answers + [more], all + more, longer, i)
    {
      if i < n {
        assert AnswerStands(answers, all, cuts, i);
        assert (all + more)[cuts[i]..cuts[i + 1]] == all[cuts[i]..cuts[i + 1]];
      }
    }
    assert Strung(answers + [more], all + more, longer);
  }

  /** The edits a hint was given, none if it was not located. */
  ghost function EditsAt(p: Planner, src: Source, hints: seq<Hint>, i: nat): seq<Edit>
    requires i < |hints|
  {
    match LocationOf(p, src, hints, i)
    case Located(edits) => edits
    case NotHere => []
  }

  ghost function SkipsAt(p: Planner, src: Source, hints: seq<Hint>, i: nat): seq<Skip>
    requires i < |hints|
  {
    match LocationOf(p, src, hints, i)
    case Located(_) => []
    case NotHere => [Skip(hints[i].rule, hints[i].line, NotLocated)]
  }

  ghost function EditsOfEach(p: Planner, src: Source, hints: seq<Hint>): seq<seq<Edit>> {
    seq(|hints|, i requires 0 <= i < |hints| => EditsAt(p, src, hints, i))
  }

  ghost function SkipsOfEach(p: Planner, src: Source, hints: seq<Hint>): seq<seq<Skip>> {
    seq(|hints|, i requires 0 <= i < |hints| => SkipsAt(p, src, hints, i))
  }

  /** The plan is the hints' answers, one after the other, and nothing else. */
  lemma {:induction false} PlanInOrder(p: Planner, src: Source, hints: seq<Hint>)
    ensures InOrder(EditsOfEach(p, src, hints), EditsOf(p, src, hints))
    ensures InOrder(SkipsOfEach(p, src, hints), SkipsOf(p, src, hints))
  {
    hide LocationOf, InOrder;
    if hints == [] {
      InOrderNone<Edit>();
      InOrderNone<Skip>();
    } else {
      var n := |hints| - 1;
      var front := hints[..n];
      PlanInOrder(p, src, front);
      InOrderSnoc(EditsOfEach(p, src, front), EditsOf(p, src, front), EditsAt(p, src, hints, n));
      InOrderSnoc(SkipsOfEach(p, src, front), SkipsOf(p, src, front), SkipsAt(p, src, hints, n));
      forall i | 0 <= i < n
        ensures LocationOf(p, src, front, i) == LocationOf(p, src, hints, i)
      {
        LocationInPrefix(p, src, hints, i, n);
      }
      assert EditsOfEach(p, src, hints) == EditsOfEach(p, src, front) + [EditsAt(p, src, hints, n)];
      assert SkipsOfEach(p, src, hints) == SkipsOfEach(p, src, front) + [SkipsAt(p, src, hints, n)];
    }
  }

  lemma {:induction false} EditsAreThoseOfHints(p: Planner, src: Source, hints: seq<Hint>, e: Edit)
    ensures e in EditsOf(p, src, hints) <==> exists i :: 0 <= i < |hints| && EditFor(p, src, hints, i, e)
  {
    hide LocationOf;
    if hints != [] {
      var n := |hints| - 1;
      var front := hints[..n];
      EditsAreThoseOfHints(p, src, front, e);
      forall i | 0 <= i < n
        ensures EditFor(p, src, front, i, e) <==> EditFor(p, src, hints, i, e)
      {
        LocationInPrefix(p, src, hints, i, n);
      }
      assert e in EditsOf(p, src, hints) <==> e in EditsOf(p, src, front) || EditFor(p, src, hints, n, e);
      hide EditsOf, EditFor;
    }
  }

  lemma {:induction false} SkipsAreThoseOfHints(p: Planner, src: Source, hints: seq<Hint>, s: Skip)
    ensures s in SkipsOf(p, src, hints) <==> exists i :: 0 <= i < |hints| && SkipFor(p, src, hints, i, s)
  {
    hide LocationOf;
    if hints != [] {
      var n := |hints| - 1;
      var front := hints[..n];
      SkipsAreThoseOfHints(p, src, front, s);
      forall i | 0 <= i < n
        ensures SkipFor(p, src, front, i, s) <==> SkipFor(p, src, hints, i, s)
      {
        LocationInPrefix(p, src, hints, i, n);
      }
      assert s in SkipsOf(p, src, hints) <==> s in SkipsOf(p, src, front) || SkipFor(p, src, hints, n, s);
      hide SkipsOf, SkipFor;
    }
  }

  /** A plan answers its hints and nothing else: its edits are exactly those the strategies gave for
      its hints, and its skips exactly those of the hints not located. */
  lemma PlanAnswersExactly(p: Planner, src: Source, hints: seq<Hint>)
    requires PlanOf(p, src, hints).Planned?
    ensures forall e :: e in PlanOf(p, src, hints).edits <==>
                          exists i :: 0 <= i < |hints| && EditFor(p, src, hints, i, e)
    ensures forall s :: s in PlanOf(p, src, hints).skips <==>
                          exists i :: 0 <= i < |hints| && SkipFor(p, src, hints, i, s)
  {
    hide EditsOf, SkipsOf, EditFor, SkipFor;
    forall e
      ensures e in EditsOf(p, src, hints) <==> exists i :: 0 <= i < |hints| && EditFor(p, src, hints, i, e)
    {
      EditsAreThoseOfHints(p, src, hints, e);
    }
    forall s
      ensures s in SkipsOf(p, src, hints) <==> exists i :: 0 <= i < |hints| && SkipFor(p, src, hints, i, s)
    {
      SkipsAreThoseOfHints(p, src, hints, s);
    }
  }

  /** All edits of a plan lie within the file. */
  lemma {:induction false} PlanFits(p: Planner, src: Source, hints: seq<Hint>)
    requires ValidPlanner(p)
    ensures Fits(|src|, EditsOf(p, src, hints))
  {
    hide LocationOf;
    if hints != [] {
      var n := |hints| - 1;
      PlanFits(p, src, hints[..n]);
      LocationFits(p, src, hints, n);
      hide ValidPlanner;
    }
  }

  lemma LocationFits(p: Planner, src: Source, hints: seq<Hint>, i: nat)
    requires ValidPlanner(p) && i < |hints|
    ensures var location := LocationOf(p, src, hints, i);
      location.Located? ==> location.edits != [] && Fits(|src|, location.edits)
  {
  }
}
