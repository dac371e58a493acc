/** The finite-state model checker: an exhaustive transition table and a breadth-first
    search that checks an invariant on every reachable state. */
module ModelCheck {
  import opened Sequences
  import opened Options

  type State = string
  type Event = string

  /** What calling the transition does: a contract breach is a panic too. */
  datatype Outcome = Next(state: State) | NotAnEnum | Panic(contract: bool)

  datatype Verdict = Holds | Fails | Panics

  datatype Machine = Machine(states: seq<State>, events: seq<Event>, step: (State, Event) -> Outcome)

  datatype Bad = Bad(state: State, verdict: Verdict)

  datatype Search = Search(seen: set<State>, bad: seq<Bad>, breaches: seq<(State, Event)>, edges: nat, dead: seq<State>)

  /** The transition function has the documented signature: it returns one of the states, if it returns;
      and an enum has at least one variant, all of them different. */
  ghost predicate Typed(m: Machine) {
    m.states != [] && Distinct(m.states)
    && forall s, e :: s in m.states && e in m.events && m.step(s, e).Next? ==> m.step(s, e).state in m.states
  }

  /** Some finite set of variants, the states among them, is not left by any transition; nothing more
      is asked of what the transition function returns. */
  ghost predicate Closed(m: Machine, variants: set<State>) {
    && m.states != [] && Distinct(m.states) && Members(m.states) <= variants
    && forall s, e :: s in variants && e in m.events && m.step(s, e).Next? ==> m.step(s, e).state in variants
  }

  // ---------------------------------------------------------------------
  // Runs.
  // ---------------------------------------------------------------------

  /** The state after a sequence of events, if every one of them led to a state. */
  function Run(m: Machine, s: State, log: seq<Event>): Option<State>
    decreases |log|
  {
    if log == [] then Some(s)
    else
      var before := Run(m, s, log[..|log| - 1]);
      if before.None? then None
      else
        match m.step(before.value, log[|log| - 1])
        case Next(t) => Some(t)
        case _ => None
  }

  ghost predicate IsLog(m: Machine, log: seq<Event>) {
    forall e :: e in log ==> e in m.events
  }

  ghost predicate Reachable(m: Machine, init: State, s: State) {
    exists log :: IsLog(m, log) && Run(m, init, log) == Some(s)
  }

  lemma ReachableStart(m: Machine, init: State)
    ensures Reachable(m, init, init)
  {
    assert Run(m, init, []) == Some(init);
  }

  lemma ReachableStep(m: Machine, init: State, s: State, e: Event)
    requires Reachable(m, init, s) && e in m.events && m.step(s, e).Next?
    ensures Reachable(m, init, m.step(s, e).state)
  {
    var log :| IsLog(m, log) && Run(m, init, log) == Some(s);
    var longer := log + [e];
    assert longer[..|longer| - 1] == log;
    assert Run(m, init, longer) == Some(m.step(s, e).state);
  }

  /** Every transition out of `s` by one of the first `k` events stays in `seen`. */
  ghost predicate Explored(m: Machine, seen: set<State>, s: State, k: nat)
    requires k <= |m.events|
  {
    forall i :: 0 <= i < k && m.step(s, m.events[i]).Next? ==> m.step(s, m.events[i]).state in seen
  }

  lemma {:induction false} RunsStayInside(m: Machine, init: State, seen: set<State>, log: seq<Event>)
    requires init in seen && IsLog(m, log)
    requires forall s :: s in seen ==> Explored(m, seen, s, |m.events|)
    ensures Run(m, init, log).Some? ==> Run(m, init, log).value in seen
    decreases |log|
  {
    if log != [] {
      var before, e := log[..|log| - 1], log[|log| - 1];
      assert log == before + [e];
      RunsStayInside(m, init, seen, before);
      assert e in m.events;
      var i :| 0 <= i < |m.events| && m.events[i] == e;
      if Run(m, init, before).Some? {
        assert Explored(m, seen, Run(m, init, before).value, |m.events|);
      }
    }
  }

  /** No cell of the table panics. */
  ghost predicate NeverPanics(m: Machine) {
    forall s, e :: s in m.states && e in m.events ==> !m.step(s, e).Panic?
  }

  ghost predicate AlwaysReturnsStates(m: Machine) {
    forall s, e :: s in m.states && e in m.events ==> m.step(s, e) != NotAnEnum
  }

  lemma {:induction false} RunGoesOn(m: Machine, s: State, log: seq<Event>)
    requires Typed(m) && AlwaysReturnsStates(m) && NeverPanics(m) && s in m.states && IsLog(m, log)
    ensures Run(m, s, log).Some? && Run(m, s, log).value in m.states
    decreases |log|
  {
    if log != [] {
      var before, e := log[..|log| - 1], log[|log| - 1];
      assert log == before + [e];
      RunGoesOn(m, s, before);
      assert e in m.events;
    }
  }

  ghost predicate Passes(m: Machine, inv: State -> Verdict, init: State) {
    NeverPanics(m) && forall s :: Reachable(m, init, s) ==> inv(s) == Holds
  }

  /** What a passing check promises: no run of events from any state panics, and the
      invariant holds after every run from the initial state. */
  lemma PassesMeansEveryRunIsSafe(m: Machine, inv: State -> Verdict, init: State)
    requires Typed(m) && AlwaysReturnsStates(m) && init in m.states
    ensures Passes(m, inv, init) <==>
      && (forall s, log :: s in m.states && IsLog(m, log) ==> Run(m, s, log).Some?)
      && (forall log :: IsLog(m, log) && Run(m, init, log).Some? ==> inv(Run(m, init, log).value) == Holds)
  {
    if Passes(m, inv, init) {
      forall s, log | s in m.states && IsLog(m, log)
        ensures Run(m, s, log).Some?
      {
        RunGoesOn(m, s, log);
      }
      forall log | IsLog(m, log) && Run(m, init, log).Some?
        ensures inv(Run(m, init, log).value) == Holds
      {
        assert Reachable(m, init, Run(m, init, log).value);
      }
    } else if !NeverPanics(m) {
      var s, e :| s in m.states && e in m.events && m.step(s, e).Panic?;
      var log := [e];
      assert log[..0] == [] && Run(m, s, []) == Some(s);
      assert IsLog(m, log) && Run(m, s, log).None?;
    }
  }

  // ---------------------------------------------------------------------
  // Counting.
  // ---------------------------------------------------------------------

  predicate IsEdge(o: Outcome) { o.Next? }
  predicate IsBreach(o: Outcome) { o == Panic(true) }
  predicate IsPanic(o: Outcome) { o.Panic? }

  /** The pairs of a state in `from` and an event number whose outcome is wanted. */
  ghost function Pairs(m: Machine, from: set<State>, wanted: Outcome -> bool): set<(State, nat)> {
    set s, i | s in from && 0 <= i < |m.events| && wanted(m.step(s, m.events[i])) :: (s, i)
  }

  /** One state's pairs, over its first `k` events. */
  ghost function Row(m: Machine, s: State, k: nat, wanted: Outcome -> bool): set<(State, nat)>
    requires k <= |m.events|
  {
    set i | 0 <= i < k && wanted(m.step(s, m.events[i])) :: (s, i)
  }

  lemma RowGrows(m: Machine, s: State, k: nat, wanted: Outcome -> bool)
    requires k < |m.events|
    ensures |Row(m, s, k + 1, wanted)| == |Row(m, s, k, wanted)| + if wanted(m.step(s, m.events[k])) then 1 else 0
  {
    var row := Row(m, s, k, wanted);
    assert (s, k) !in row;
    assert Row(m, s, k + 1, wanted) == if wanted(m.step(s, m.events[k])) then row + {(s, k)} else row;
  }

  lemma PairsGrow(m: Machine, from: set<State>, s: State, wanted: Outcome -> bool)
    requires s !in from
    ensures |Pairs(m, from + {s}, wanted)| == |Pairs(m, from, wanted)| + |Row(m, s, |m.events|, wanted)|
  {
    var before, row := Pairs(m, from, wanted), Row(m, s, |m.events|, wanted);
    assert Pairs(m, from + {s}, wanted) == before + row;
    assert before !! row;
  }

  /** The number of wanted pairs among the states in `from` and the first `k` events of `cur`. */
  ghost predicate Counted(m: Machine, from: set<State>, cur: State, k: nat, wanted: Outcome -> bool, n: nat)
    requires k <= |m.events|
  {
    n == |Pairs(m, from, wanted)| + |Row(m, cur, k, wanted)|
  }

  lemma CountedStart(m: Machine, from: set<State>, cur: State, wanted: Outcome -> bool)
    ensures Counted(m, from, cur, 0, wanted, |Pairs(m, from, wanted)|)
  {
    assert Row(m, cur, 0, wanted) == {};
  }

  lemma CountedNext(m: Machine, from: set<State>, cur: State, k: nat, wanted: Outcome -> bool, n: nat)
    requires k < |m.events| && Counted(m, from, cur, k, wanted, n)
    ensures Counted(m, from, cur, k + 1, wanted, if wanted(m.step(cur, m.events[k])) then n + 1 else n)
  {
    RowGrows(m, cur, k, wanted);
  }

  lemma CountedRow(m: Machine, from: set<State>, cur: State, wanted: Outcome -> bool, n: nat)
    requires cur !in from && Counted(m, from, cur, |m.events|, wanted, n)
    ensures n == |Pairs(m, from + {cur}, wanted)|
  {
    PairsGrow(m, from, cur, wanted);
  }

  // ---------------------------------------------------------------------
  // The exhaustive table.
  // ---------------------------------------------------------------------

  lemma MembersGrow(xs: seq<State>, i: nat)
    requires Distinct(xs) && i < |xs|
    ensures xs[i] !in Members(xs[..i]) && Members(xs[..i + 1]) == Members(xs[..i]) + {xs[i]}
  {
    assert xs[..i + 1] == xs[..i] + [xs[i]];
  }

  lemma NoPairsNoPanic(m: Machine)
    ensures |Pairs(m, Members(m.states), IsPanic)| == 0 <==> NeverPanics(m)
  {
    var pairs := Pairs(m, Members(m.states), IsPanic);
    if NeverPanics(m) {
      assert pairs == {};
    }
    forall s, e | pairs == {} && s in m.states && e in m.events
      ensures !m.step(s, e).Panic?
    {
      var j: nat :| j < |m.events| && m.events[j] == e;
      assert (s, j) !in pairs;
    }
  }

  /** The table: every state with every event, each panic counted once. */
  method CountPanics(m: Machine) returns (violations: nat)
    requires Distinct(m.states)
    ensures violations == |Pairs(m, Members(m.states), IsPanic)|
    ensures violations == 0 <==> NeverPanics(m)
  {
    hide Pairs, Row, Members, Distinct, NeverPanics;
    violations := 0;
    PairsOfNone(m);
    for i := 0 to |m.states|
      invariant violations == |Pairs(m, Members(m.states[..i]), IsPanic)|
    {
      ghost var above := Members(m.states[..i]);
      CountedStart(m, above, m.states[i], IsPanic);
      for j := 0 to |m.events|
        invariant Counted(m, above, m.states[i], j, IsPanic, violations)
      {
        CountedNext(m, above, m.states[i], j, IsPanic, violations);
        if m.step(m.states[i], m.events[j]).Panic? {
          violations := violations + 1;
        }
      }
      MembersGrow(m.states, i);
      CountedRow(m, above, m.states[i], IsPanic, violations);
    }
    assert m.states[..|m.states|] == m.states;
    NoPairsNoPanic(m);
  }

  lemma PairsOfNone(m: Machine)
    ensures Pairs(m, Members(m.states[..0]), IsPanic) == {}
    ensures Pairs(m, {}, IsEdge) == {} && Pairs(m, {}, IsBreach) == {}
  {
  }

  // ---------------------------------------------------------------------
  // The search.
  // ---------------------------------------------------------------------

  /** `bad` lists, once each, the states among `seen` that break the invariant. */
  ghost predicate ListsBad(inv: State -> Verdict, seen: set<State>, bad: seq<Bad>) {
    && (forall i, j :: 0 <= i < j < |bad| ==> bad[i].state != bad[j].state)
    && (forall b :: b in bad <==> b.state in seen && b.verdict == inv(b.state) != Holds)
  }

  /** `breaches` lists exactly the contract breaches of the states in `from`. */
  ghost predicate ListsBreaches(m: Machine, from: set<State>, breaches: seq<(State, Event)>) {
    forall b :: b in breaches <==> b.0 in from && b.1 in m.events && m.step(b.0, b.1) == Panic(true)
  }

  /** The same, with the first `k` events of `cur`. */
  ghost predicate ListsBreachesTo(m: Machine, from: set<State>, cur: State, k: nat, breaches: seq<(State, Event)>)
    requires k <= |m.events|
  {
    forall b :: b in breaches <==>
      && ((b.0 in from && b.1 in m.events) || (b.0 == cur && b.1 in m.events[..k]))
      && m.step(b.0, b.1) == Panic(true)
  }

  /** The states met so far: expanded, being expanded, and waiting. */
  ghost predicate Queue(m: Machine, variants: set<State>, init: State, expanded: set<State>, frontier: seq<State>,
                        seen: set<State>) {
    && init in seen && seen <= variants
    && Distinct(frontier) && expanded !! Members(frontier)
    && seen == expanded + Members(frontier)
    && (forall s :: s in seen ==> Reachable(m, init, s))
  }

  ghost predicate AllExplored(m: Machine, expanded: set<State>, seen: set<State>) {
    forall s :: s in expanded ==> Explored(m, seen, s, |m.events|)
  }

  method NoteVerdict(inv: State -> Verdict, s: State, ghost seen: set<State>, bad: seq<Bad>) returns (bad': seq<Bad>)
    requires ListsBad(inv, seen, bad) && s !in seen
    ensures ListsBad(inv, seen + {s}, bad')
  {
    bad' := bad;
    if inv(s) != Holds {
      bad' := bad + [Bad(s, inv(s))];
    }
  }

  method Unreached(states: seq<State>, seen: set<State>) returns (dead: seq<State>)
    ensures forall s :: s in dead <==> s in states && s !in seen
    ensures Distinct(states) ==> Distinct(dead)
  {
    dead := [];
    for i := 0 to |states|
      invariant forall s :: s in dead <==> s in states[..i] && s !in seen
      invariant Distinct(states) ==> Distinct(dead)
    {
      if states[i] !in seen {
        dead := dead + [states[i]];
      }
    }
    assert states[..|states|] == states;
  }

  lemma ExploredAll(m: Machine, init: State, seen: set<State>)
    requires init in seen && AllExplored(m, seen, seen)
    requires forall s :: s in seen ==> Reachable(m, init, s)
    ensures forall s :: s in seen <==> Reachable(m, init, s)
  {
    forall s | Reachable(m, init, s)
      ensures s in seen
    {
      var log :| IsLog(m, log) && Run(m, init, log) == Some(s);
      RunsStayInside(m, init, seen, log);
    }
  }

  lemma QueueStart(m: Machine, variants: set<State>, inv: State -> Verdict, init: State)
    requires Closed(m, variants) && init in m.states
    ensures Queue(m, variants, init, {}, [init], {init}) && AllExplored(m, {}, {init})
    ensures ListsBreaches(m, {}, []) && ListsBad(inv, {}, [])
  {
    ReachableStart(m, init);
  }

  lemma QueuePop(m: Machine, variants: set<State>, init: State, expanded: set<State>, frontier: seq<State>,
                 seen: set<State>)
    requires Queue(m, variants, init, expanded, frontier, seen) && frontier != []
    ensures Queue(m, variants, init, expanded + {frontier[0]}, frontier[1..], seen)
    ensures frontier[0] !in expanded && Reachable(m, init, frontier[0])
    ensures variants - (expanded + {frontier[0]}) < variants - expanded
  {
    var rest := frontier[1..];
    assert frontier == [frontier[0]] + rest;
    assert frontier[0] in Members(frontier) && frontier[0] in variants;
    assert frontier[0] !in rest;
    assert Members(frontier) == {frontier[0]} + Members(rest);
  }

  lemma QueuePush(m: Machine, variants: set<State>, init: State, expanded: set<State>, frontier: seq<State>,
                  seen: set<State>, cur: State, e: Event)
    requires Queue(m, variants, init, expanded, frontier, seen) && Reachable(m, init, cur) && e in m.events
    requires Closed(m, variants) && cur in variants && m.step(cur, e).Next? && m.step(cur, e).state !in seen
    ensures Queue(m, variants, init, expanded, frontier + [m.step(cur, e).state], seen + {m.step(cur, e).state})
  {
    var next := m.step(cur, e).state;
    ReachableStep(m, init, cur, e);
    assert Members(frontier + [next]) == Members(frontier) + {next};
    assert next !in Members(frontier);
  }

  lemma RowStarts(m: Machine, expanded: set<State>, seen: set<State>, cur: State, breaches: seq<(State, Event)>)
    requires ListsBreaches(m, expanded, breaches)
    ensures Explored(m, seen, cur, 0) && ListsBreachesTo(m, expanded, cur, 0, breaches)
  {
  }

  lemma ExploredMore(m: Machine, expanded: set<State>, seen: set<State>, cur: State, k: nat, more: set<State>)
    requires k < |m.events| && AllExplored(m, expanded, seen) && Explored(m, seen, cur, k) && seen <= more
    requires m.step(cur, m.events[k]).Next? ==> m.step(cur, m.events[k]).state in more
    ensures AllExplored(m, expanded, more) && Explored(m, more, cur, k + 1)
  {
  }

  lemma ExploredRow(m: Machine, expanded: set<State>, seen: set<State>, cur: State)
    requires AllExplored(m, expanded, seen) && Explored(m, seen, cur, |m.events|)
    ensures AllExplored(m, expanded + {cur}, seen)
  {
  }

  lemma BreachesMore(m: Machine, from: set<State>, cur: State, k: nat, breaches: seq<(State, Event)>)
    requires k < |m.events| && ListsBreachesTo(m, from, cur, k, breaches)
    ensures ListsBreachesTo(m, from, cur, k + 1,
              if m.step(cur, m.events[k]) == Panic(true) then breaches + [(cur, m.events[k])] else breaches)
  {
    assert m.events[..k + 1] == m.events[..k] + [m.events[k]];
  }

  lemma BreachesRow(m: Machine, from: set<State>, cur: State, breaches: seq<(State, Event)>)
    requires ListsBreachesTo(m, from, cur, |m.events|, breaches)
    ensures ListsBreaches(m, from + {cur}, breaches)
  {
    assert m.events[..|m.events|] == m.events;
  }

  /** What a search from `init` must find: the reachable states, the rest, the reachable violators and
      contract breaches, and how many transitions there are. */
  ghost predicate Found(m: Machine, inv: State -> Verdict, init: State, r: Search) {
    && (forall s :: s in r.seen <==> Reachable(m, init, s))
    && (forall s :: s in r.dead <==> s in m.states && !Reachable(m, init, s))
    && ListsBad(inv, r.seen, r.bad)
    && (forall b :: b in r.breaches <==> b.0 in r.seen && b.1 in m.events && m.step(b.0, b.1) == Panic(true))
    && r.edges == |Pairs(m, r.seen, IsEdge)| && |r.breaches| == |Pairs(m, r.seen, IsBreach)|
  }

  /** Breadth-first search from `init`: it sees exactly the reachable states, lists exactly
      the reachable violators and contract breaches, and counts every transition taken. */
  method SearchStates(m: Machine, inv: State -> Verdict, init: State, ghost variants: set<State>) returns (r: Search)
    requires Closed(m, variants) && init in m.states
    ensures Found(m, inv, init, r)
  {
    hide Queue, AllExplored, Explored, ListsBad, ListsBreaches, ListsBreachesTo, Counted, Pairs, Row, Reachable;
    hide Members, Closed;
    QueueStart(m, variants, inv, init);
    PairsOfNone(m);
    var bad := NoteVerdict(inv, init, {}, []);
    var seen: set<State> := {init};
    var frontier := [init];
    var breaches: seq<(State, Event)> := [];
    var edges := 0;
    ghost var expanded: set<State> := {};
    assert {} + {init} == seen;
    while frontier != []
      invariant Queue(m, variants, init, expanded, frontier, seen)
      invariant AllExplored(m, expanded, seen)
      invariant ListsBad(inv, seen, bad) && ListsBreaches(m, expanded, breaches)
      invariant edges == |Pairs(m, expanded, IsEdge)| && |breaches| == |Pairs(m, expanded, IsBreach)|
      decreases variants - expanded
    {
      var cur := frontier[0];
      QueuePop(m, variants, init, expanded, frontier, seen);
      frontier := frontier[1..];
      CountedStart(m, expanded, cur, IsEdge);
      CountedStart(m, expanded, cur, IsBreach);
      RowStarts(m, expanded, seen, cur, breaches);
      for i := 0 to |m.events|
        invariant Queue(m, variants, init, expanded + {cur}, frontier, seen)
        invariant AllExplored(m, expanded, seen) && Explored(m, seen, cur, i)
        invariant ListsBad(inv, seen, bad) && ListsBreachesTo(m, expanded, cur, i, breaches)
        invariant Counted(m, expanded, cur, i, IsEdge, edges) && Counted(m, expanded, cur, i, IsBreach, |breaches|)
      {
        var e := m.events[i];
        CountedNext(m, expanded, cur, i, IsEdge, edges);
        CountedNext(m, expanded, cur, i, IsBreach, |breaches|);
        BreachesMore(m, expanded, cur, i, breaches);
        ghost var before := seen;
        match m.step(cur, e) {
        case Panic(contract) =>
          if contract {
            breaches := breaches + [(cur, e)];
          }
        case NotAnEnum =>
        case Next(next) =>
          edges := edges + 1;
          if next !in seen {
            QueuePush(m, variants, init, expanded + {cur}, frontier, seen, cur, e);
            bad := NoteVerdict(inv, next, seen, bad);
            seen := seen + {next};
            frontier := frontier + [next];
          }
        }
        ExploredMore(m, expanded, before, cur, i, seen);
      }
      ExploredRow(m, expanded, seen, cur);
      BreachesRow(m, expanded, cur, breaches);
      CountedRow(m, expanded, cur, IsEdge, edges);
      CountedRow(m, expanded, cur, IsBreach, |breaches|);
      expanded := expanded + {cur};
    }
    SearchDone(m, variants, init, expanded, seen, breaches);
    var dead := Unreached(m.states, seen);
    r := Search(seen, bad, breaches, edges, dead);
  }

  lemma SearchDone(m: Machine, variants: set<State>, init: State, expanded: set<State>, seen: set<State>,
                   breaches: seq<(State, Event)>)
    requires Queue(m, variants, init, expanded, [], seen) && AllExplored(m, expanded, seen) &&
      ListsBreaches(m, expanded, breaches)
    ensures expanded == seen && forall s :: s in seen <==> Reachable(m, init, s)
    ensures forall b :: b in breaches <==> b.0 in seen && b.1 in m.events && m.step(b.0, b.1) == Panic(true)
  {
    ExploredAll(m, init, seen);
  }

  // ---------------------------------------------------------------------
  // The exit code.
  // ---------------------------------------------------------------------

  datatype Report = Report(violations: nat, search: Option<Search>)

  lemma BadMeansUnsafe(m: Machine, inv: State -> Verdict, init: State, seen: set<State>, bad: seq<Bad>)
    requires ListsBad(inv, seen, bad) && forall s :: s in seen <==> Reachable(m, init, s)
    ensures bad == [] <==> forall s :: Reachable(m, init, s) ==> inv(s) == Holds
  {
    if bad != [] {
      assert bad[0] in bad;
    }
    forall s | bad == [] && s in seen
      ensures inv(s) == Holds
    {
      assert Bad(s, inv(s)) !in bad;
    }
  }

  /** The whole tool. It exits with 0 exactly when no transition of the whole domain panics
      and the invariant, if one is given, holds on every state reachable from a valid start, which is
      the first state if none is given. */
  method CheckMachine(m: Machine, inv: Option<State -> Verdict>, init: Option<State>, ghost variants: set<State>)
    returns (exit: nat, r: Report)
    requires Closed(m, variants)
    ensures exit == 0 || exit == 1
    ensures var start := if init == None then m.states[0] else init.value;
      && (exit == 0 <==> if inv.None? then NeverPanics(m) else start in m.states && Passes(m, inv.value, start))
      && (r.search.Some? <==> inv.Some? && start in m.states)
      && (r.search.Some? ==> Found(m, inv.value, start, r.search.value))
    ensures r.violations == |Pairs(m, Members(m.states), IsPanic)|
  {
    hide NeverPanics, Reachable, ListsBad, Pairs, Members;
    var violations := CountPanics(m);
    r := Report(violations, None);
    exit := if violations > 0 then 1 else 0;
    if inv.Some? {
      var start := if init.Some? then init.value else m.states[0];
      if start !in m.states {
        return 1, r;
      }
      var search := SearchStates(m, inv.value, start, variants);
      BadMeansUnsafe(m, inv.value, start, search.seen, search.bad);
      r := Report(violations, Some(search));
      if search.bad != [] {
        exit := 1;
      }
    }
  }
}
