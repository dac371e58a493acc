/** The lifecycle word of a reachable audit ledger, and who may write what in it. */
module AuditStates {
  import opened Options
  import opened Ledger
  import opened FinalAudit
  import opened AuditLaws

  // ---------------------------------------------------------------------
  // Roles.
  // ---------------------------------------------------------------------

  /** Which side of the table may write an entry of each kind. */
  ghost predicate RightSide(roster: seq<string>, b: Body) {
    match b
    case Engagement(who, _, _, _, _, _) => who !in roster
    case Evidence(who, role, independent, _, _, _, _, _, _, _) =>
      (independent <==> who in roster) && (role == Auditor <==> who in roster)
    case Finding(_, who, _, _, _, _, _) => who in roster
    case Triage(who, _, verdict, _, fix) => who !in roster && (fix.Some? <==> verdict == "accepted")
    case Signoff(who, _, _, _, _, _, _, _) => who !in roster
  }

  /** In every reachable ledger the engagement comes first and only there, and every
      entry was written by the side it belongs to. */
  lemma RolesAreSeparate(kit: Kit, steps: seq<(World, Command)>, i: nat)
    requires i < |Replay(kit, steps)|
    ensures var log := Replay(kit, steps);
            && log[0].rec.body.Engagement? && (log[i].rec.body.Engagement? <==> i == 0)
            && RightSide(log[0].rec.body.roster, log[i].rec.body)
  {
    ReachableIsSound(kit, steps);
    var log := Replay(kit, steps);
    assert Lawful(log[..0], log[0].rec.body);
    assert Lawful(log[..i], log[i].rec.body);
  }

  /** A triage names the one finding of its id, filed before it; no other triage names that finding,
      and it carries a fix exactly when it accepts. */
  lemma TriageFollowsItsFinding(kit: Kit, steps: seq<(World, Command)>, t: nat) returns (j: nat)
    requires t < |Replay(kit, steps)| && Replay(kit, steps)[t].rec.body.Triage?
    ensures var log := Replay(kit, steps);
            && j < t && log[j].rec.body.Finding? && log[j].rec.body.id == log[t].rec.body.finding
            && forall u :: 0 <= u < |log| && u != t && log[u].rec.body.Triage? ==>
                 log[u].rec.body.finding != log[t].rec.body.finding
    ensures var log := Replay(kit, steps);
            && (log[t].rec.body.fix.Some? <==> log[t].rec.body.verdict == "accepted")
            && forall i :: 0 <= i < |log| && i != j && log[i].rec.body.Finding? ==>
                 log[i].rec.body.id != log[t].rec.body.finding
  {
    ReachableIsSound(kit, steps);
    var log := Replay(kit, steps);
    LawfulAt(log, t);
    j := FindingAt(log[..t], log[t].rec.body.finding);
    forall i | 0 <= i < |log| && log[i].rec.body.Finding? && log[i].rec.body.id == log[t].rec.body.finding
      ensures i == j
    {
      if i < j { FindingIdsUnique(log, i, j); }
      if j < i { FindingIdsUnique(log, j, i); }
    }
    forall u | 0 <= u < |log| && u != t && log[u].rec.body.Triage?
      ensures log[u].rec.body.finding != log[t].rec.body.finding
    {
      if u < t { TriagesDiffer(log, u, t); } else { TriagesDiffer(log, t, u); }
    }
  }

  lemma {:induction false} TriageIsListed(log: Log, j: nat)
    requires j < |log| && log[j].rec.body.Triage?
    ensures log[j].rec.body.finding in TriagesOf(log)
  {
    if j < |log| - 1 {
      TriageIsListed(log[..|log| - 1], j);
    }
  }

  lemma TriagesDiffer(log: Log, t: nat, u: nat)
    requires AllLawful(log) && t < u < |log| && log[t].rec.body.Triage? && log[u].rec.body.Triage?
    ensures log[t].rec.body.finding != log[u].rec.body.finding
  {
    LawfulAt(log, u);
    TriageIsListed(log[..u], t);
  }

  // ---------------------------------------------------------------------
  // States.
  // ---------------------------------------------------------------------

  function Rank(s: State): nat {
    match s
    case Vacant => 0
    case Open => 1
    case Underway => 2
    case Reported => 3
    case Responded => 4
    case Remediated => 5
    case Sealed => 6
  }

  lemma NoUnfixed(log: Log)
    requires AllLawful(log)
    ensures forall f :: f in TriagesOf(log) ==> !IsUnfixed(TriagesOf(log)[f])
  {
    TriagesAreOnePerFinding(log);
    hide AllLawful, TriagesOf, FindingsOf, Count;
  }

  /** An acceptance always carries its fix, so no reachable ledger is merely "responded". */
  lemma RespondedNeverOccurs(kit: Kit, steps: seq<(World, Command)>)
    ensures DeriveState(Replay(kit, steps)) != Responded
  {
    ReachableIsSound(kit, steps);
    NoUnfixed(Replay(kit, steps));
    hide AllLawful, TriagesOf, FindingsOf, IsUnfixed, Linked, Accepted, SealOf, PassesOf, Replay;
  }

  lemma SealedAbsorbs(kit: Kit, log: Log, w: World, c: Command)
    requires AllLawful(log) && DeriveState(log) == Sealed
    ensures Step(kit, log, w, c) == log
  {
    EngagedLog(log);
    hide AllLawful, TriagesOf, FindingsOf, IsUnfixed, Accepted, SealOf, PassesOf;
  }

  lemma TriagedMeansAll(findings: map<string, Record>, triages: map<string, Body>)
    requires triages.Keys <= findings.Keys
    ensures |triages| < |findings| <==> triages.Keys != findings.Keys
  {
    assert |triages.Keys| == |triages| && |findings.Keys| == |findings|;
    var rest := findings.Keys - triages.Keys;
    assert findings.Keys == triages.Keys + rest;
    assert |findings.Keys| == |triages.Keys| + |rest|;
  }

  /** The lifecycle word of a lawful ledger: whether it is empty, sealed, has a pass,
      and which findings were filed and answered. */
  function Word(empty: bool, closed: bool, passed: bool, filed: set<string>, answered: set<string>): State {
    if empty then Vacant
    else if closed then Sealed
    else if !passed then Open
    else if filed == {} then Underway
    else if answered != filed then Reported
    else Remediated
  }

  lemma StateIsWord(log: Log)
    requires AllLawful(log)
    ensures TriagesOf(log).Keys <= FindingsOf(log).Keys
    ensures DeriveState(log) ==
              Word(log == [], SealOf(log).Some?, PassesOf(log) != [], FindingsOf(log).Keys, TriagesOf(log).Keys)
  {
    NoUnfixed(log);
    TriagesAreOnePerFinding(log);
    TriagedMeansAll(FindingsOf(log), TriagesOf(log));
    if log != [] {
      EngagedLog(log);
    }
    assert FindingsOf(log).Keys == {} <==> FindingsOf(log) == map[];
    hide AllLawful, TriagesOf, FindingsOf, PassesOf, SealOf, Count, IsUnfixed, EngagementOf;
  }

  lemma WordMoves(empty: bool, passed: bool, passed': bool, closed': bool,
                  filed: set<string>, answered: set<string>, answered': set<string>)
    requires passed ==> passed'
    requires answered <= answered' <= filed
    ensures Rank(Word(false, closed', passed', filed, answered')) >= Rank(Word(empty, false, passed, filed, answered))
  {
  }

  lemma BodyKind(kit: Kit, log: Log, w: World, c: Command)
    requires AllLawful(log) && Attempt(kit, log, w, c).Write?
    ensures var b := Attempt(kit, log, w, c).body;
            (c.File? <==> b.Finding?) && (log == [] <==> c.Engage?) && SealOf(log) == None
  {
    EmptyCensus();
    if log != [] {
      EngagedLog(log);
    }
    FindingKind(kit, log, w, c);
    hide AllLawful, TriagesOf, FindingsOf, PassesOf, Accepted, SealOf, MaxFindingNumber, NonEmpty;
    hide DecidePass, DecideFile, DecideRespond, DecideSignOff;
  }

  lemma FindingKind(kit: Kit, log: Log, w: World, c: Command)
    requires Attempt(kit, log, w, c).Write?
    ensures c.File? <==> Attempt(kit, log, w, c).body.Finding?
  {
    hide AllLawful, TriagesOf, FindingsOf, PassesOf, Accepted, ClosureRefusals, SealOf, MaxFindingNumber, NonEmpty;
  }

  lemma StateMoves(log: Log, e: Entry)
    requires AllLawful(log) && AllLawful(log + [e]) && !e.rec.body.Finding? && SealOf(log) == None
    ensures Rank(DeriveState(log + [e])) >= Rank(DeriveState(log))
  {
    hide *;
    StateIsWord(log);
    StateIsWord(log + [e]);
    CensusStep(log, e);
    WordMoves(log == [], PassesOf(log) != [], PassesOf(log + [e]) != [], SealOf(log + [e]).Some?,
              FindingsOf(log).Keys, TriagesOf(log).Keys, TriagesOf(log + [e]).Keys);
  }

  /** The derived state never falls back, except when a new finding is filed. */
  lemma RankDropsOnlyOnFile(kit: Kit, log: Log, w: World, c: Command)
    requires AllLawful(log) && Rank(DeriveState(Step(kit, log, w, c))) < Rank(DeriveState(log))
    ensures c.File?
  {
    var d := Attempt(kit, log, w, c);
    if d.Write? && !c.File? {
      StepKeepsLaw(kit, log, w, c);
      BodyKind(kit, log, w, c);
      StateMoves(log, Chained(kit, log, w.now, d.body));
    }
  }
}
