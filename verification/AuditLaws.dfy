/** What every reachable audit ledger satisfies: who may write what, what a seal
    vouches for, and when the release gate opens. */
module AuditLaws {
  import opened Sequences
  import opened Options
  import opened Ledger
  import opened FinalAudit

  // ---------------------------------------------------------------------
  // Counting entries.
  // ---------------------------------------------------------------------

  function Count(p: Body -> bool, log: Log): nat {
    if log == [] then 0
    else Count(p, log[..|log| - 1]) + if p(log[|log| - 1].rec.body) then 1 else 0
  }

  predicate IsPass(b: Body) { b.Evidence? }
  predicate IsIndependentPass(b: Body) { b.Evidence? && b.independent }
  predicate IsFinding(b: Body) { b.Finding? }
  predicate IsTriage(b: Body) { b.Triage? }
  predicate IsFix(b: Body) { b.Triage? && b.fix.Some? }

  // ---------------------------------------------------------------------
  // The law of one entry, given the entries before it.
  // ---------------------------------------------------------------------

  ghost predicate SealLaw(before: Log, eng: Body, s: Body)
    requires s.Signoff? && eng.Engagement?
  {
    var passes := PassesOf(before);
    && passes != [] && HasIndependent(passes) && !LastFailed(passes)
    && FindingsOf(before).Keys <= TriagesOf(before).Keys
    && s.anchors == eng.anchors
    && s.passes == Count(IsPass, before)
    && s.independentPasses == Count(IsIndependentPass, before)
    && s.findings == Count(IsFinding, before)
    && s.triages == Count(IsTriage, before)
    && s.fixes == Count(IsFix, before)
  }

  ghost predicate Lawful(before: Log, b: Body) {
    if before == [] then b.Engagement? && b.roster != [] && "" !in b.roster && b.who !in b.roster
    else
      var eng := before[0].rec.body;
      && eng.Engagement? && SealOf(before) == None
      && match b
         case Engagement(_, _, _, _, _, _) => false
         case Evidence(who, role, independent, _, anchors, drift, _, _, _, _) =>
           independent == (who in eng.roster) && (role == Auditor) == independent &&
             drift == Drift(eng.anchors, anchors)
         case Finding(id, who, _, _, _, _, _) =>
           who in eng.roster && id == FormatId(1 + Count(IsFinding, before))
         case Triage(who, finding, verdict, _, fix) =>
           who !in eng.roster && finding in FindingsOf(before) && finding !in TriagesOf(before)
           && (fix.Some? <==> verdict == "accepted")
         case Signoff(who, _, _, _, _, _, _, _) => who !in eng.roster && SealLaw(before, eng, b)
  }

  ghost predicate AllLawful(log: Log) {
    forall i :: 0 <= i < |log| ==> Lawful(log[..i], log[i].rec.body)
  }

  lemma AllLawfulPrefix(log: Log, k: nat)
    requires AllLawful(log) && k <= |log|
    ensures AllLawful(log[..k])
  {
    forall i | 0 <= i < k
      ensures Lawful(log[..k][..i], log[..k][i].rec.body)
    {
      assert log[..k][..i] == log[..i];
    }
  }

  lemma LawfulAt(log: Log, i: nat)
    requires AllLawful(log) && i < |log|
    ensures AllLawful(log[..i]) && Lawful(log[..i], log[i].rec.body)
  {
    AllLawfulPrefix(log, i);
  }

  lemma AllLawfulSnoc(log: Log, e: Entry)
    requires AllLawful(log) && Lawful(log, e.rec.body)
    ensures AllLawful(log + [e])
  {
    var log' := log + [e];
    forall i | 0 <= i < |log'|
      ensures Lawful(log'[..i], log'[i].rec.body)
    {
      assert log'[..i] == if i < |log| then log[..i] else log;
    }
  }

  // ---------------------------------------------------------------------
  // The census of a lawful ledger.
  // ---------------------------------------------------------------------

  /** The highest number in use is the number of findings. */
  lemma {:induction false} NumbersAreCounts(log: Log)
    requires AllLawful(log)
    ensures MaxFindingNumber(log) == Count(IsFinding, log)
  {
    if log != [] {
      var n := |log|;
      AllLawfulPrefix(log, n - 1);
      NumbersAreCounts(log[..n - 1]);
      assert Lawful(log[..n - 1], log[n - 1].rec.body);
      FormatIdIsReadable(1 + Count(IsFinding, log[..n - 1]));
    }
  }

  /** The ids AF-001 to AF-k. */
  function Ids(k: nat): set<string> {
    if k == 0 then {} else Ids(k - 1) + {FormatId(k)}
  }

  lemma {:induction false} LaterIdsAreFresh(k: nat, n: nat)
    requires n > k
    ensures FormatId(n) !in Ids(k)
  {
    hide FormatId, Padded;
    if k > 0 {
      LaterIdsAreFresh(k - 1, n);
      FormatIdIsReadable(n);
      FormatIdIsReadable(k);
    }
  }

  lemma {:induction false} IdsSize(k: nat)
    ensures |Ids(k)| == k
  {
    hide FormatId, Padded;
    if k > 0 {
      IdsSize(k - 1);
      LaterIdsAreFresh(k - 1, k);
    }
  }

  lemma FindingKeysUnfold(log: Log)
    requires log != []
    ensures var before, b := log[..|log| - 1], log[|log| - 1].rec.body;
            && FindingsOf(log).Keys == FindingsOf(before).Keys + (if b.Finding? then {b.id} else {})
            && Count(IsFinding, log) == Count(IsFinding, before) + if b.Finding? then 1 else 0
  {
  }

  lemma EmptyCensus()
    ensures FindingsOf([]).Keys == {} && Count(IsFinding, []) == 0 && Ids(0) == {} && SealOf([]) == None
  {
  }

  lemma IdsUnfold(k: nat)
    ensures Ids(0) == {} && Ids(k + 1) == Ids(k) + {FormatId(k + 1)}
  {
  }

  /** The finding ids of a reachable ledger are exactly 1..k, one entry each. */
  lemma {:induction false} FindingIdsAreSequential(log: Log)
    requires AllLawful(log)
    ensures FindingsOf(log).Keys == Ids(Count(IsFinding, log))
    ensures |FindingsOf(log)| == Count(IsFinding, log)
  {
    hide *;
    EmptyCensus();
    if log != [] {
      var n := |log|;
      LawfulAt(log, n - 1);
      FindingIdsAreSequential(log[..n - 1]);
      FindingKeysUnfold(log);
      IdsUnfold(Count(IsFinding, log[..n - 1]));
      if log[n - 1].rec.body.Finding? {
        LawfulFinding(log[..n - 1], log[n - 1].rec.body);
      }
    }
    IdsSize(Count(IsFinding, log));
    assert |FindingsOf(log).Keys| == |FindingsOf(log)|;
  }

  lemma LawfulFinding(before: Log, b: Body)
    requires b.Finding? && Lawful(before, b)
    ensures b.id == FormatId(1 + Count(IsFinding, before))
  {
  }

  /** One triage per finding, each after its finding, carrying a fix exactly when accepted. */
  lemma {:induction false} TriagesAreOnePerFinding(log: Log)
    requires AllLawful(log)
    ensures TriagesOf(log).Keys <= FindingsOf(log).Keys
    ensures |TriagesOf(log)| == Count(IsTriage, log)
    ensures forall f :: f in TriagesOf(log) ==>
              TriagesOf(log)[f].Triage? && (TriagesOf(log)[f].fix.Some? <==> IsAcceptance(TriagesOf(log)[f]))
    ensures var triages := TriagesOf(log);
      |set f | f in triages && triages[f].Triage? && triages[f].fix.Some?| == Count(IsFix, log)
  {
    if log != [] {
      var n := |log|;
      var before := log[..n - 1];
      AllLawfulPrefix(log, n - 1);
      TriagesAreOnePerFinding(before);
      var b := log[n - 1].rec.body;
      assert Lawful(before, b);
      FixesStep(before, log);
      if b.Triage? {
        assert TriagesOf(log).Keys == TriagesOf(before).Keys + {b.finding};
        assert |TriagesOf(log).Keys| == |TriagesOf(before).Keys| + 1;
      }
    }
  }

  ghost function Fixes(log: Log): set<string> {
    set f | f in TriagesOf(log) && TriagesOf(log)[f].Triage? && TriagesOf(log)[f].fix.Some?
  }

  lemma FixesStep(before: Log, log: Log)
    requires log != [] && before == log[..|log| - 1] && Lawful(before, log[|log| - 1].rec.body)
    ensures |Fixes(log)| == |Fixes(before)| + if IsFix(log[|log| - 1].rec.body) then 1 else 0
  {
    var b := log[|log| - 1].rec.body;
    if b.Triage? {
      assert TriagesOf(log) == TriagesOf(before)[b.finding := b];
      assert Fixes(log) == Fixes(before) + if b.fix.Some? then {b.finding} else {};
      assert b.finding !in Fixes(before);
    } else {
      assert TriagesOf(log) == TriagesOf(before);
    }
  }

  lemma {:induction false} PassesAreCounted(log: Log)
    ensures |PassesOf(log)| == Count(IsPass, log)
    ensures CountIndependent(PassesOf(log)) == Count(IsIndependentPass, log)
    ensures forall i :: 0 <= i < |PassesOf(log)| ==> PassesOf(log)[i].Evidence?
  {
    if log != [] {
      var before := log[..|log| - 1];
      PassesAreCounted(before);
      var b := log[|log| - 1].rec.body;
      if b.Evidence? {
        assert PassesOf(log)[..|PassesOf(log)| - 1] == PassesOf(before);
      } else {
        assert PassesOf(log) == PassesOf(before);
      }
    }
  }

  // ---------------------------------------------------------------------
  // Every step keeps the law.
  // ---------------------------------------------------------------------

  lemma EngagedLog(log: Log)
    requires AllLawful(log) && log != []
    ensures EngagementOf(log).Some? && EngagementOf(log).value == log[0].rec.body
  {
    assert Lawful(log[..0], log[0].rec.body);
  }

  lemma {:induction false} NonEmptyNames(names: seq<string>)
    ensures "" !in NonEmpty(names)
  {
    if names != [] {
      NonEmptyNames(names[..|names| - 1]);
    }
  }

  lemma EngageIsLawful(kit: Kit, log: Log, w: World, c: Command)
    requires AllLawful(log) && c.Engage? && DecideEngage(kit, log, w, c).Write?
    ensures log == [] && Lawful(log, DecideEngage(kit, log, w, c).body)
  {
    NonEmptyNames(c.auditors);
    if log != [] {
      EngagedLog(log);
    }
  }

  lemma FileIsLawful(log: Log, w: World, c: Command)
    requires AllLawful(log) && log != [] && SealOf(log) == None && c.File?
    requires log[0].rec.body.Engagement? && DecideFile(log[0].rec.body, log, w, c).Write?
    ensures Lawful(log, DecideFile(log[0].rec.body, log, w, c).body)
  {
    NumbersAreCounts(log);
  }

  /** A signoff that is written found nothing that stands against it. */
  lemma SignOffBody(kit: Kit, eng: Body, log: Log, w: World, c: Command)
    requires c.SignOff? && eng.Engagement? && DecideSignOff(kit, eng, log, w, c).Write?
    ensures ClosureRefusals(kit, log, w) == {} && w.anchors.Some? && Actor(c.who, w) !in eng.roster
    ensures var triages := TriagesOf(log);
      DecideSignOff(kit, eng, log, w, c).body ==
        Signoff(Actor(c.who, w), GitSha(w), w.anchors.value, |PassesOf(log)|, CountIndependent(PassesOf(log)),
                |FindingsOf(log)|, |triages|, |set f | f in triages && triages[f].Triage? && triages[f].fix.Some?|)
  {
    hide ClosureRefusals, FindingsOf, TriagesOf, PassesOf, CountIndependent, GitSha;
    assert forall law :: law !in ClosureRefusals(kit, log, w);
  }

  lemma SignOffIsLawful(kit: Kit, log: Log, w: World, c: Command)
    requires AllLawful(log) && log != [] && SealOf(log) == None && c.SignOff?
    requires log[0].rec.body.Engagement? && DecideSignOff(kit, log[0].rec.body, log, w, c).Write?
    ensures Lawful(log, DecideSignOff(kit, log[0].rec.body, log, w, c).body)
  {
    hide DecideSignOff, ClosureRefusals, AllLawful, FindingsOf, TriagesOf, PassesOf, FixesStand, Count, SealOf, Ids;
    hide CountIndependent, HasIndependent, LastFailed, GitSha, IsAcceptance, IsUnfixed;
    EngagedLog(log);
    PassesAreCounted(log);
    FindingIdsAreSequential(log);
    TriagesAreOnePerFinding(log);
    ClosureLaws(kit, log, w);
    SignOffBody(kit, log[0].rec.body, log, w, c);
  }

  lemma NoDrift(pinned: Anchors, live: Anchors)
    ensures Drift(pinned, live) == {} <==> pinned == live
  {
    if Drift(pinned, live) == {} {
      forall n | n in {Scope, Freeze, Snapshot}
        ensures pinned.Get(n) == live.Get(n)
      {
        assert n !in Drift(pinned, live);
      }
      assert pinned.Get(Scope) == live.Get(Scope) && pinned.Get(Freeze) == live.Get(Freeze)
          && pinned.Get(Snapshot) == live.Get(Snapshot);
    }
  }

  lemma NoAnchorRefusals(eng: Body, w: World)
    requires eng.Engagement?
    ensures AnchorRefusals(eng, w) == {} <==> w.anchors == Some(eng.anchors)
  {
    if w.anchors.Some? {
      var d := Drift(eng.anchors, w.anchors.value);
      NoDrift(eng.anchors, w.anchors.value);
      assert AnchorRefusals(eng, w) == set n | n in d :: AnchorMoved(n);
      if d != {} {
        var n :| n in d;
        assert AnchorMoved(n) in AnchorRefusals(eng, w);
      }
    } else {
      assert AnchorsUnknown in AnchorRefusals(eng, w);
    }
  }

  lemma NoTriageRefusals(findings: map<string, Record>, triages: map<string, Body>)
    ensures TriageRefusals(findings, triages) == {} <==>
              findings.Keys <= triages.Keys && forall f :: f in triages ==> !IsUnfixed(triages[f])
  {
    var u := set f | f in findings && f !in triages :: Untriaged(f);
    if TriageRefusals(findings, triages) == {} {
      assert u == {} && Unfixed !in TriageRefusals(findings, triages);
      forall f | f in findings
        ensures f in triages
      {
        assert f !in triages ==> Untriaged(f) in u;
      }
    }
  }

  /** Every recorded fix that git answered about has landed and is not older than its finding. */
  ghost predicate FixesStand(kit: Kit, findings: map<string, Record>, triages: map<string, Body>, w: World) {
    forall f :: f in triages && HasFix(triages[f]) ==>
      CommitLanded(kit, w, triages[f].fix.value) != Some(false) &&
      (f in findings ==> !TooEarly(kit, w, triages[f].fix.value, findings[f].timestamp))
  }

  lemma NoLandingRefusals(kit: Kit, findings: map<string, Record>, triages: map<string, Body>, w: World)
    ensures LandingRefusals(kit, findings, triages, w) == {} <==> w.ownRepo && FixesStand(kit, findings, triages, w)
  {
    var r := LandingRefusals(kit, findings, triages, w);
    if w.ownRepo {
      if r == {} {
        forall f | f in triages && HasFix(triages[f])
          ensures CommitLanded(kit, w, triages[f].fix.value) != Some(false)
          ensures f in findings ==> !TooEarly(kit, w, triages[f].fix.value, findings[f].timestamp)
        {
          assert NotLanded(f) !in r && Predates(f) !in r;
        }
      }
    } else {
      assert NoHistory in r;
    }
  }

  lemma NoPassRefusals(passes: seq<Body>)
    ensures PassRefusals(passes) == {} <==> passes != [] && HasIndependent(passes) && !LastFailed(passes)
  {
    assert passes == [] ==> NoPass in PassRefusals(passes);
    assert !HasIndependent(passes) ==> NoIndependentPass in PassRefusals(passes);
    assert passes != [] && LastFailed(passes) ==> LatestPassFailed in PassRefusals(passes);
  }

  /** The closure laws, one by one: the seal may be written exactly when all of these hold. */
  lemma ClosureLaws(kit: Kit, log: Log, w: World)
    requires EngagementOf(log).Some?
    ensures var findings, triages, passes := FindingsOf(log), TriagesOf(log), PassesOf(log);
            ClosureRefusals(kit, log, w) == {} <==>
              && passes != [] && HasIndependent(passes) && !LastFailed(passes)
              && findings.Keys <= triages.Keys && (forall f :: f in triages ==> !IsUnfixed(triages[f]))
              && w.anchors == Some(EngagementOf(log).value.anchors)
              && w.ownRepo && FixesStand(kit, findings, triages, w)
  {
    var findings, triages, passes := FindingsOf(log), TriagesOf(log), PassesOf(log);
    NoPassRefusals(passes);
    NoTriageRefusals(findings, triages);
    NoAnchorRefusals(EngagementOf(log).value, w);
    NoLandingRefusals(kit, findings, triages, w);
    hide FindingsOf, TriagesOf, PassesOf, FixesStand, IsUnfixed, HasIndependent, LastFailed;
    hide PassRefusals, TriageRefusals, AnchorRefusals, LandingRefusals;
  }

  lemma StepKeepsLaw(kit: Kit, log: Log, w: World, c: Command)
    requires AllLawful(log)
    ensures AllLawful(Step(kit, log, w, c))
  {
    hide AllLawful, Lawful, DecideEngage, DecidePass, DecideFile, DecideRespond, DecideSignOff, Accepted, SealOf;
    var d := Attempt(kit, log, w, c);
    if d.Write? {
      if c.Engage? {
        EngageIsLawful(kit, log, w, c);
      } else {
        EngagedLog(log);
        match c
        case RunPass(_, _) => PassIsLawful(log, w, c);
        case File(_, _, _, _, _, _) => FileIsLawful(log, w, c);
        case Respond(_, _, _, _, _) => RespondIsLawful(kit, log, w, c);
        case SignOff(_) => SignOffIsLawful(kit, log, w, c);
      }
      AllLawfulSnoc(log, Chained(kit, log, w.now, d.body));
    }
  }

  lemma PassIsLawful(log: Log, w: World, c: Command)
    requires AllLawful(log) && log != [] && SealOf(log) == None && c.RunPass?
    requires log[0].rec.body.Engagement? && DecidePass(log[0].rec.body, w, c).Write?
    ensures Lawful(log, DecidePass(log[0].rec.body, w, c).body)
  {
  }

  lemma RespondIsLawful(kit: Kit, log: Log, w: World, c: Command)
    requires AllLawful(log) && log != [] && SealOf(log) == None && c.Respond?
    requires log[0].rec.body.Engagement? && DecideRespond(kit, log[0].rec.body, log, w, c).Write?
    ensures Lawful(log, DecideRespond(kit, log[0].rec.body, log, w, c).body)
  {
  }

  /** What holds of the ledger after any commands in any worlds: the chain is whole, every
      entry is lawful, and only the last entry can be one that the reader refuses. */
  ghost predicate Sound(kit: Kit, log: Log) {
    Linked(kit, log) && AllLawful(log) && (log != [] ==> Accepted(kit, log[..|log| - 1]))
  }

  lemma {:induction false} ReachableIsSound(kit: Kit, steps: seq<(World, Command)>)
    ensures Sound(kit, Replay(kit, steps))
  {
    hide Linked, AllLawful, Accepted, Attempt;
    if steps == [] {
      EmptyIsSound(kit);
    } else {
      var (w, c) := steps[|steps| - 1];
      var log := Replay(kit, steps[..|steps| - 1]);
      ReachableIsSound(kit, steps[..|steps| - 1]);
      StepKeepsLaw(kit, log, w, c);
      var d := Attempt(kit, log, w, c);
      if d.Write? {
        AppendAccepted(kit, log, w.now, d.body);
        WritesOnlyOntoAccepted(kit, log, w, c);
      }
    }
  }

  lemma EmptyIsSound(kit: Kit)
    ensures Sound(kit, [])
  {
  }

  lemma WritesOnlyOntoAccepted(kit: Kit, log: Log, w: World, c: Command)
    requires Attempt(kit, log, w, c).Write?
    ensures Accepted(kit, log)
  {
  }

  // ---------------------------------------------------------------------
  // Reader and writer.
  // ---------------------------------------------------------------------

  /** What a caller must look to for the written entry to read back. */
  ghost predicate CarefulCaller(log: Log, c: Command) {
    match c
    case Engage(_, firm, auditors, _, basis) => firm != "" && basis != "" && Distinct(NonEmpty(auditors))
    case RunPass(_, check) => check.verified <= check.total && (check.ok || check.refusals != [])
    case File(_, against, _, _, path, text) =>
      against != "" && Count(IsFinding, log) < 999 &&
      (path.Some? ==> path.value != "") && (text.Some? ==> text.value != "")
    case Respond(_, _, _, _, _) => true
    case SignOff(_) => true
  }

  /** A writer's entry is one the reader accepts exactly when the caller was careful:
      otherwise the ledger never reads back again. */
  lemma WriterReaderAgree(kit: Kit, log: Log, w: World, c: Command)
    requires AllLawful(log) && Attempt(kit, log, w, c).Write?
    ensures Accepted(kit, Step(kit, log, w, c)) <==> CarefulCaller(log, c)
  {
    var d := Attempt(kit, log, w, c);
    AppendAccepted(kit, log, w.now, d.body);
    BodyShape(kit, log, w, c);
  }

  lemma EngageShape(kit: Kit, log: Log, w: World, c: Command)
    requires c.Engage? && DecideEngage(kit, log, w, c).Write?
    ensures WellShaped(kit, DecideEngage(kit, log, w, c).body) <==> CarefulCaller(log, c)
  {
    NonEmptyNames(c.auditors);
  }

  lemma PassShape(kit: Kit, log: Log, eng: Body, w: World, c: Command)
    requires c.RunPass? && eng.Engagement? && DecidePass(eng, w, c).Write?
    ensures WellShaped(kit, DecidePass(eng, w, c).body) <==> CarefulCaller(log, c)
  {
  }

  lemma FileShape(kit: Kit, log: Log, eng: Body, w: World, c: Command)
    requires AllLawful(log) && c.File? && eng.Engagement? && DecideFile(eng, log, w, c).Write?
    ensures WellShaped(kit, DecideFile(eng, log, w, c).body) <==> CarefulCaller(log, c)
  {
    NumbersAreCounts(log);
    hide AllLawful, FormatId, IsFindingId;
    FormatIdIsReadable(1 + Count(IsFinding, log));
  }

  lemma RespondShape(kit: Kit, log: Log, eng: Body, w: World, c: Command)
    requires c.Respond? && eng.Engagement? && DecideRespond(kit, eng, log, w, c).Write?
    ensures WellShaped(kit, DecideRespond(kit, eng, log, w, c).body)
  {
  }

  lemma SignOffShape(kit: Kit, log: Log, eng: Body, w: World, c: Command)
    requires c.SignOff? && eng.Engagement? && DecideSignOff(kit, eng, log, w, c).Write?
    ensures WellShaped(kit, DecideSignOff(kit, eng, log, w, c).body)
  {
  }

  lemma BodyShape(kit: Kit, log: Log, w: World, c: Command)
    requires AllLawful(log) && Decide(kit, log, w, c).Write?
    ensures WellShaped(kit, Decide(kit, log, w, c).body) <==> CarefulCaller(log, c)
  {
    hide AllLawful, DecideEngage, DecidePass, DecideFile, DecideRespond, DecideSignOff, WellShaped;
    if c.Engage? {
      EngageShape(kit, log, w, c);
    } else {
      var eng := EngagementOf(log).value;
      match c
      case RunPass(_, _) => PassShape(kit, log, eng, w, c);
      case File(_, _, _, _, _, _) => FileShape(kit, log, eng, w, c);
      case Respond(_, _, _, _, _) => RespondShape(kit, log, eng, w, c);
      case SignOff(_) => SignOffShape(kit, log, eng, w, c);
    }
  }

  // ---------------------------------------------------------------------
  // The census, read off the entries.
  // ---------------------------------------------------------------------

  /** How the census changes with one more entry. */
  lemma CensusStep(log: Log, e: Entry)
    ensures var log', b := log + [e], e.rec.body;
            && EngagementOf(log') ==
                 (if log != [] then EngagementOf(log) else if b.Engagement? then Some(b) else None)
            && FindingsOf(log') == (if b.Finding? then FindingsOf(log)[b.id := e.rec] else FindingsOf(log))
            && TriagesOf(log') ==
                 (if b.Triage? && b.finding !in TriagesOf(log) then TriagesOf(log)[b.finding := b] else TriagesOf(log))
            && PassesOf(log') == PassesOf(log) + (if b.Evidence? then [b] else [])
            && SealOf(log') == (if SealOf(log).Some? then SealOf(log) else if b.Signoff? then Some(b) else None)
            && var m := MaxFindingNumber(log);
               MaxFindingNumber(log') == if b.Finding? && IdNumber(b.id) > m then IdNumber(b.id) else m
  {
    assert (log + [e])[..|log|] == log;
  }

  ghost predicate IsBodyAt(log: Log, i: int, b: Body) {
    0 <= i < |log| && log[i].rec.body == b
  }

  lemma {:induction false} PassAt(log: Log, k: nat) returns (j: nat)
    requires k < |PassesOf(log)|
    ensures IsBodyAt(log, j, PassesOf(log)[k]) && PassesOf(log)[k].Evidence?
    ensures k == |PassesOf(log)| - 1 ==> forall t :: j < t < |log| ==> !log[t].rec.body.Evidence?
  {
    var before := log[..|log| - 1];
    if k < |PassesOf(before)| {
      j := PassAt(before, k);
    } else {
      j := |log| - 1;
    }
  }

  lemma {:induction false} TriageAt(log: Log, f: string) returns (j: nat)
    requires f in TriagesOf(log)
    ensures IsBodyAt(log, j, TriagesOf(log)[f]) && TriagesOf(log)[f].Triage? && TriagesOf(log)[f].finding == f
  {
    var before := log[..|log| - 1];
    if f in TriagesOf(before) {
      j := TriageAt(before, f);
    } else {
      j := |log| - 1;
    }
  }

  lemma {:induction false} FindingAt(log: Log, f: string) returns (j: nat)
    requires f in FindingsOf(log)
    ensures j < |log| && log[j].rec == FindingsOf(log)[f] && log[j].rec.body.Finding? && log[j].rec.body.id == f
  {
    var last := log[|log| - 1].rec;
    if last.body.Finding? && last.body.id == f {
      j := |log| - 1;
    } else {
      j := FindingAt(log[..|log| - 1], f);
    }
  }

  lemma {:induction false} FindingIsListed(log: Log, j: nat)
    requires j < |log| && log[j].rec.body.Finding?
    ensures log[j].rec.body.id in FindingsOf(log)
  {
    if j < |log| - 1 {
      FindingIsListed(log[..|log| - 1], j);
    }
  }

  /** No two finding entries of a lawful ledger share an id. */
  lemma FindingIdsUnique(log: Log, i: nat, j: nat)
    requires AllLawful(log) && i < j < |log|
    requires log[i].rec.body.Finding? && log[j].rec.body.Finding?
    ensures log[i].rec.body.id != log[j].rec.body.id
  {
    var before := log[..j];
    AllLawfulPrefix(log, j);
    FindingIsListed(before, i);
    FindingIdsAreSequential(before);
    assert Lawful(before, log[j].rec.body);
    LaterIdsAreFresh(Count(IsFinding, before), 1 + Count(IsFinding, before));
  }

  lemma {:induction false} SealAt(log: Log, i: nat)
    requires i < |log| && log[i].rec.body.Signoff?
    ensures SealOf(log).Some?
  {
    if i < |log| - 1 {
      SealAt(log[..|log| - 1], i);
    }
  }

  lemma NothingAfterSeal(log: Log, i: nat)
    requires AllLawful(log) && i < |log| && log[i].rec.body.Signoff?
    ensures i == |log| - 1
  {
    if i < |log| - 1 {
      assert Lawful(log[..i + 1], log[i + 1].rec.body);
      SealAt(log[..i + 1], i);
    }
  }

  // ---------------------------------------------------------------------
  // What a seal vouches for.
  // ---------------------------------------------------------------------

  ghost predicate TriagedBefore(log: Log, j: nat, i: nat)
    requires j < |log| && log[j].rec.body.Finding?
  {
    exists t :: j < t < i && t < |log| && log[t].rec.body.Triage? && log[t].rec.body.finding == log[j].rec.body.id
  }

  /** Entry `i` is a signoff, and the entries before it satisfy every closure law. */
  ghost predicate SealVouches(log: Log, i: nat)
    requires i < |log|
  {
    var s := log[i].rec.body;
    && s.Signoff? && log[0].rec.body.Engagement?
    && s.who !in log[0].rec.body.roster
    && (exists j :: 0 <= j < i && IsIndependentPass(log[j].rec.body) && log[j].rec.body.who in log[0].rec.body.roster)
    && (exists j :: 0 <= j < i && IsPass(log[j].rec.body) && log[j].rec.body.outcome == Passed
                    && forall k :: j < k < i ==> !IsPass(log[k].rec.body))
    && (forall j :: 0 <= j < i && IsFinding(log[j].rec.body) ==> TriagedBefore(log, j, i))
    && s.anchors == log[0].rec.body.anchors
    && s.passes == Count(IsPass, log[..i]) && s.independentPasses == Count(IsIndependentPass, log[..i])
    && s.findings == Count(IsFinding, log[..i]) && s.triages == Count(IsTriage, log[..i])
    && s.fixes == Count(IsFix, log[..i])
  }

  lemma SealedTriages(log: Log, i: nat, j: nat)
    requires AllLawful(log) && j < i < |log| && log[i].rec.body.Signoff? && log[j].rec.body.Finding?
    ensures TriagedBefore(log, j, i)
  {
    var before, f := log[..i], log[j].rec.body.id;
    assert Lawful(before, log[i].rec.body);
    AllLawfulPrefix(log, i);
    FindingIsListed(before, j);
    var t := TriageAt(before, f);
    assert Lawful(before[..t], before[t].rec.body) && before[..t] == log[..t];
    var j' := FindingAt(log[..t], f);
    if j' < j { FindingIdsUnique(log, j', j); }
    if j < j' { FindingIdsUnique(log, j, j'); }
  }

  lemma SealedPasses(log: Log, i: nat) returns (j: nat, k: nat)
    requires AllLawful(log) && i < |log| && log[i].rec.body.Signoff?
    ensures j < i && IsIndependentPass(log[j].rec.body) && log[j].rec.body.who in log[0].rec.body.roster
    ensures k < i && IsPass(log[k].rec.body) && log[k].rec.body.outcome == Passed
    ensures forall t :: k < t < i ==> !IsPass(log[t].rec.body)
  {
    hide AllLawful, PassesOf, Count;
    var before, passes := log[..i], PassesOf(log[..i]);
    LawfulSeal(log, i);
    var p :| 0 <= p < |passes| && passes[p].Evidence? && passes[p].independent;
    j := PassAt(before, p);
    LawfulPass(log, j);
    k := PassAt(before, |passes| - 1);
    assert forall t :: k < t < i ==> log[t] == before[t];
  }

  lemma LawfulSeal(log: Log, i: nat)
    requires AllLawful(log) && i < |log| && log[i].rec.body.Signoff?
    ensures i > 0 && log[0].rec.body.Engagement? && SealLaw(log[..i], log[0].rec.body, log[i].rec.body)
    ensures log[i].rec.body.who !in log[0].rec.body.roster
  {
    assert Lawful(log[..i], log[i].rec.body);
  }

  lemma LawfulPass(log: Log, j: nat)
    requires AllLawful(log) && j < |log| && log[j].rec.body.Evidence?
    ensures j > 0 && log[0].rec.body.Engagement?
    ensures log[j].rec.body.independent <==> log[j].rec.body.who in log[0].rec.body.roster
  {
    assert Lawful(log[..j], log[j].rec.body);
  }

  /** In every reachable ledger a signoff is unique, is the last entry, and vouches for
      every closure law over the entries before it. */
  lemma SealIsFinal(kit: Kit, steps: seq<(World, Command)>, i: nat)
    requires i < |Replay(kit, steps)| && Replay(kit, steps)[i].rec.body.Signoff?
    ensures i == |Replay(kit, steps)| - 1 && SealVouches(Replay(kit, steps), i)
  {
    var log := Replay(kit, steps);
    ReachableIsSound(kit, steps);
    NothingAfterSeal(log, i);
    assert Lawful(log[..i], log[i].rec.body);
    var j, k := SealedPasses(log, i);
    forall j | 0 <= j < i && IsFinding(log[j].rec.body)
      ensures TriagedBefore(log, j, i)
    {
      SealedTriages(log, i, j);
    }
  }
}
