/** What a seal and a green gate guarantee about the recorded fixes, and exactly when. */
module AuditSeals {
  import opened Options
  import opened Ledger
  import opened FinalAudit
  import opened AuditLaws

  // ---------------------------------------------------------------------
  // Commit histories.
  // ---------------------------------------------------------------------

  /** Ancestry is reflexive and transitive, and an unknown tree is no commit. */
  ghost predicate ValidHistory(kit: Kit) {
    && (forall a :: a != UNKNOWN ==> kit.isAncestor(a, a))
    && (forall a, b, c :: kit.isAncestor(a, b) && kit.isAncestor(b, c) ==> kit.isAncestor(a, c))
    && (forall c :: !kit.isAncestor(UNKNOWN, c) && !kit.isAncestor(c, UNKNOWN))
  }

  ghost predicate SameLanding(kit: Kit, k: Kit, w: World) {
    forall x :: w.ownRepo && w.answers(AskLanded(x)) ==> k.isAncestor(x, w.head) == kit.isAncestor(x, w.head)
  }

  ghost predicate SameDates(kit: Kit, k: Kit, w: World) {
    forall x :: w.ownRepo && w.answers(AskTime(x)) ==> k.committed(x) == kit.committed(x)
  }

  /** A history that a command run in this world cannot tell from the real one. */
  ghost predicate Possible(kit: Kit, k: Kit, w: World) {
    ValidHistory(k) && k.hash == kit.hash && k.windowOk == kit.windowOk && SameLanding(kit, k, w) &&
      SameDates(kit, k, w)
  }

  lemma SameRefusals(kit: Kit, k: Kit, log: Log, w: World)
    requires Possible(kit, k, w)
    ensures ClosureRefusals(k, log, w) == ClosureRefusals(kit, log, w)
  {
    var findings, triages := FindingsOf(log), TriagesOf(log);
    assert forall x :: CommitLanded(k, w, x) == CommitLanded(kit, w, x);
    assert forall x :: CommitTime(k, w, x) == CommitTime(kit, w, x);
    assert LandingRefusals(k, findings, triages, w) == LandingRefusals(kit, findings, triages, w);
    hide LandingRefusals, FindingsOf, TriagesOf, PassesOf, PassRefusals, TriageRefusals, AnchorRefusals, EngagementOf;
  }

  lemma SameAccepted(kit: Kit, k: Kit, log: Log, w: World)
    requires Possible(kit, k, w)
    ensures Accepted(k, log) == Accepted(kit, log)
  {
    hide ValidHistory, SameLanding, SameDates;
    assert forall i :: 0 <= i < |log| ==> LinkedAt(k, log, i) == LinkedAt(kit, log, i);
    assert forall b :: WellShaped(k, b) == WellShaped(kit, b);
  }

  lemma SameRespond(kit: Kit, k: Kit, eng: Body, log: Log, w: World, c: Command)
    requires Possible(kit, k, w) && c.Respond? && eng.Engagement?
    ensures DecideRespond(k, eng, log, w, c) == DecideRespond(kit, eng, log, w, c)
  {
    assert CommitLanded(k, w, c.fix) == CommitLanded(kit, w, c.fix);
    assert CommitTime(k, w, c.fix) == CommitTime(kit, w, c.fix);
    hide FindingsOf, TriagesOf, IsFindingId, IsHex40, CommitLanded, CommitTime, Possible;
  }

  /** Every command does the same in a history that it cannot tell from the real one. */
  lemma SameStep(kit: Kit, k: Kit, log: Log, w: World, c: Command)
    requires Possible(kit, k, w)
    ensures Attempt(k, log, w, c) == Attempt(kit, log, w, c) && Step(k, log, w, c) == Step(kit, log, w, c)
  {
    SameAccepted(kit, k, log, w);
    SameRefusals(kit, k, log, w);
    if c.Respond? && EngagementOf(log).Some? {
      SameRespond(kit, k, EngagementOf(log).value, log, w, c);
    }
    hide Accepted, ClosureRefusals, FindingsOf, TriagesOf, PassesOf, SealOf, MaxFindingNumber, NonEmpty, DecideRespond;
    hide FormatId, Drift, ValidHistory, SameLanding, SameDates, DecidePass, DecideFile, CountIndependent;
  }

  // ---------------------------------------------------------------------
  // The landing law at the signoff.
  // ---------------------------------------------------------------------

  ghost predicate Recorded(log: Log, f: string) {
    f in TriagesOf(log) && HasFix(TriagesOf(log)[f]) && f in FindingsOf(log)
  }

  ghost function FixOf(log: Log, f: string): string
    requires Recorded(log, f)
  {
    TriagesOf(log)[f].fix.value
  }

  ghost function Filed(log: Log, f: string): nat
    requires Recorded(log, f)
  {
    FindingsOf(log)[f].timestamp
  }

  /** Git told the head, and whether the fix is an ancestor of it (the head itself is one). */
  ghost predicate ToldLanded(log: Log, w: World, f: string)
    requires Recorded(log, f)
  {
    w.answers(AskHead) && (w.answers(AskLanded(FixOf(log, f))) || FixOf(log, f) == w.head)
  }

  /** Git told the fix's date (every commit postdates a finding filed at time zero). */
  ghost predicate ToldDate(log: Log, w: World, f: string)
    requires Recorded(log, f)
  {
    w.answers(AskTime(FixOf(log, f))) || Filed(log, f) == 0
  }

  ghost predicate Told(log: Log, w: World) {
    forall f :: Recorded(log, f) ==> ToldLanded(log, w, f) && ToldDate(log, w, f)
  }

  /** A signoff checks the landing and the date of a fix exactly as far as git answers:
      whatever was answered stands, and the seal names the tree if the head was told. */
  lemma SignOffChecks(kit: Kit, log: Log, w: World, c: Command)
    requires AllLawful(log) && c.SignOff? && Attempt(kit, log, w, c).Write?
    ensures w.ownRepo
    ensures Attempt(kit, log, w, c).body.Signoff?
    ensures w.answers(AskHead) ==> Attempt(kit, log, w, c).body.tree == w.head
    ensures forall f :: f in TriagesOf(log) && HasFix(TriagesOf(log)[f]) ==>
              var fix := TriagesOf(log)[f].fix.value;
              && (w.answers(AskLanded(fix)) ==> kit.isAncestor(fix, w.head))
              && (w.answers(AskTime(fix)) ==>
                    f in FindingsOf(log) && kit.committed(fix) >= FindingsOf(log)[f].timestamp)
  {
    SignOffWrites(kit, log, w, c);
    ClosureLaws(kit, log, w);
    TriagesAreOnePerFinding(log);
    hide *;
    AnsweredFixesStand(kit, FindingsOf(log), TriagesOf(log), w);
  }

  lemma SignOffWrites(kit: Kit, log: Log, w: World, c: Command)
    requires AllLawful(log) && c.SignOff? && Attempt(kit, log, w, c).Write?
    ensures EngagementOf(log).Some? && ClosureRefusals(kit, log, w) == {}
    ensures w.ownRepo && w.answers(AskHead) ==> Attempt(kit, log, w, c).body.tree == w.head
    ensures Attempt(kit, log, w, c).body.Signoff?
  {
    EngagedLog(log);
    SignOffBody(kit, EngagementOf(log).value, log, w, c);
    hide AllLawful, Accepted, ClosureRefusals, FindingsOf, TriagesOf, PassesOf, SealOf, DecideSignOff;
  }

  lemma AnsweredFixesStand(kit: Kit, findings: map<string, Record>, triages: map<string, Body>, w: World)
    requires FixesStand(kit, findings, triages, w) && w.ownRepo && triages.Keys <= findings.Keys
    ensures forall f :: f in triages && HasFix(triages[f]) ==>
              var fix := triages[f].fix.value;
              && (w.answers(AskLanded(fix)) ==> kit.isAncestor(fix, w.head))
              && (w.answers(AskTime(fix)) ==> f in findings && kit.committed(fix) >= findings[f].timestamp)
  {
  }

  /** Every fix recorded before entry `i` is an ancestor of the sealed tree, and not older than its finding. */
  ghost predicate FixesLanded(kit: Kit, log: Log, i: nat)
    requires i < |log| && log[i].rec.body.Signoff?
  {
    forall f :: Recorded(log[..i], f) ==>
      && kit.isAncestor(FixOf(log[..i], f), log[i].rec.body.tree)
      && kit.committed(FixOf(log[..i], f)) >= Filed(log[..i], f)
  }

  /** The history with one commit cut off from the head. */
  ghost function Severed(kit: Kit, w: World, x: string): Kit {
    kit.(isAncestor := (a: string, b: string) =>
      a != UNKNOWN && b != UNKNOWN && (a == b || (b == w.head && kit.isAncestor(a, b) && a != x)))
  }

  /** The history with one commit dated at time zero. */
  ghost function Backdated(kit: Kit, x: string): Kit {
    kit.(committed := (y: string) => DateBut(kit, x, y))
  }

  ghost function DateBut(kit: Kit, x: string, y: string): nat {
    if y == x then 0 else kit.committed(y)
  }

  lemma SeveredIsPossible(kit: Kit, w: World, x: string)
    requires ValidHistory(kit) && !w.answers(AskLanded(x))
    ensures Possible(kit, Severed(kit, w, x), w)
    ensures x != w.head ==> !Severed(kit, w, x).isAncestor(x, w.head)
  {
  }

  lemma BackdatedIsPossible(kit: Kit, w: World, x: string)
    requires ValidHistory(kit) && !w.answers(AskTime(x))
    ensures Possible(kit, Backdated(kit, x), w) && Backdated(kit, x).committed(x) == 0
  {
  }

  /** The answers that a signoff got decide what its seal guarantees.  A fix is an ancestor of
      the sealed tree in every history they allow exactly when the head and the landing were told. */
  lemma LandingGuaranteed(kit: Kit, log: Log, w: World, c: Command, f: string)
    requires ValidHistory(kit) && AllLawful(log) && c.SignOff? && Attempt(kit, log, w, c).Write? && Recorded(log, f)
    ensures Attempt(kit, log, w, c).body.Signoff?
    ensures ToldLanded(log, w, f) <==>
      forall k :: Possible(kit, k, w) ==> k.isAncestor(FixOf(log, f), Attempt(kit, log, w, c).body.tree)
  {
    var fix, tree := FixOf(log, f), Attempt(kit, log, w, c).body.tree;
    SignOffTree(kit, log, w, c);
    SignOffChecks(kit, log, w, c);
    hide AllLawful, Attempt, FindingsOf, TriagesOf, HasFix;
    if ToldLanded(log, w, f) {
      forall k | Possible(kit, k, w)
        ensures k.isAncestor(fix, tree)
      {
      }
    } else if w.answers(AskHead) {
      SeveredIsPossible(kit, w, fix);
    } else {
      PossibleItself(kit, w);
    }
  }

  lemma PossibleItself(kit: Kit, w: World)
    requires ValidHistory(kit)
    ensures Possible(kit, kit, w)
  {
  }

  lemma SignOffTree(kit: Kit, log: Log, w: World, c: Command)
    requires AllLawful(log) && c.SignOff? && Attempt(kit, log, w, c).Write?
    ensures w.ownRepo && Attempt(kit, log, w, c).body.Signoff?
    ensures Attempt(kit, log, w, c).body.tree == if w.answers(AskHead) then w.head else UNKNOWN
  {
    SignOffChecks(kit, log, w, c);
    EngagedLog(log);
    hide AllLawful, Accepted, ClosureRefusals, FindingsOf, TriagesOf, PassesOf, SealOf;
  }

  /** And it is not older than its finding in every history the answers allow exactly when
      its date was told. */
  lemma DateGuaranteed(kit: Kit, log: Log, w: World, c: Command, f: string)
    requires ValidHistory(kit) && AllLawful(log) && c.SignOff? && Attempt(kit, log, w, c).Write? && Recorded(log, f)
    ensures ToldDate(log, w, f) <==>
      forall k :: Possible(kit, k, w) ==> k.committed(FixOf(log, f)) >= Filed(log, f)
  {
    var fix := FixOf(log, f);
    SignOffChecks(kit, log, w, c);
    hide AllLawful, Attempt;
    if ToldDate(log, w, f) {
      forall k | Possible(kit, k, w)
        ensures k.committed(fix) >= Filed(log, f)
      {
      }
    } else {
      BackdatedIsPossible(kit, w, fix);
    }
  }

  /** The landing law holds of a seal in every history that its signoff's answers allow,
      exactly when git told the signoff everything the law asks about the recorded fixes. */
  lemma SealGuaranteesLaw(kit: Kit, log: Log, w: World, c: Command)
    requires ValidHistory(kit) && AllLawful(log) && c.SignOff? && Attempt(kit, log, w, c).Write?
    ensures var log' := Step(kit, log, w, c);
      && |log'| == |log| + 1 && log'[|log|].rec.body.Signoff?
      && (forall k :: Possible(kit, k, w) ==> Step(k, log, w, c) == log')
      && (Told(log, w) <==> forall k :: Possible(kit, k, w) ==> FixesLanded(k, log', |log|))
  {
    SignOffTree(kit, log, w, c);
    var log' := Step(kit, log, w, c);
    var tree := Attempt(kit, log, w, c).body.tree;
    assert log'[..|log|] == log && log'[|log|].rec.body.tree == tree;
    hide AllLawful, Attempt, Step, Possible, Recorded, ToldLanded, ToldDate, ValidHistory;
    forall k | Possible(kit, k, w)
      ensures Step(k, log, w, c) == log'
    {
      SameStep(kit, k, log, w, c);
    }
    forall f | Recorded(log, f)
      ensures ToldLanded(log, w, f) <==> forall k :: Possible(kit, k, w) ==> k.isAncestor(FixOf(log, f), tree)
      ensures ToldDate(log, w, f) <==> forall k :: Possible(kit, k, w) ==> k.committed(FixOf(log, f)) >= Filed(log, f)
    {
      LandingGuaranteed(kit, log, w, c, f);
      DateGuaranteed(kit, log, w, c, f);
    }
    hide FixOf, Filed;
  }

  /** Step `s` of the run wrote its seal, and nothing was written afterwards. */
  ghost predicate IsSealStep(kit: Kit, steps: seq<(World, Command)>, s: nat) {
    && s < |steps| && steps[s].1.SignOff?
    && var before := Replay(kit, steps[..s]);
       && Attempt(kit, before, steps[s].0, steps[s].1).Write?
       && Replay(kit, steps) == Step(kit, before, steps[s].0, steps[s].1)
  }

  lemma OnlySignOffSeals(kit: Kit, log: Log, w: World, c: Command)
    requires Attempt(kit, log, w, c).Write?
    ensures Attempt(kit, log, w, c).body.Signoff? <==> c.SignOff?
  {
  }

  lemma SealedStays(kit: Kit, log: Log, w: World, c: Command)
    requires SealOf(log).Some? && AllLawful(log)
    ensures !Attempt(kit, log, w, c).Write?
  {
    EngagedLog(log);
    hide AllLawful, Accepted, SealOf;
    assert log != [] by { EmptyCensus(); }
  }

  lemma {:induction false} SealStep(kit: Kit, steps: seq<(World, Command)>) returns (s: nat)
    requires SealOf(Replay(kit, steps)).Some?
    ensures IsSealStep(kit, steps, s)
  {
    EmptyCensus();
    var front := steps[..|steps| - 1];
    var (w, c) := steps[|steps| - 1];
    var log := Replay(kit, front);
    ReachableIsSound(kit, front);
    hide AllLawful, Accepted, Linked, SealOf, Attempt;
    if SealOf(log).Some? {
      SealedStays(kit, log, w, c);
      s := SealStep(kit, front);
      assert steps[..s] == front[..s];
    } else {
      s := |steps| - 1;
      var d := Attempt(kit, log, w, c);
      if d.Write? {
        CensusStep(log, Chained(kit, log, w.now, d.body));
        OnlySignOffSeals(kit, log, w, c);
      }
    }
  }

  /** In every sealed run: the landing law holds of the seal in every history that the sealing
      step could not tell from the real one, exactly when git told that step all about the fixes. */
  lemma SealedFixesLanded(kit: Kit, steps: seq<(World, Command)>) returns (s: nat)
    requires ValidHistory(kit) && SealOf(Replay(kit, steps)).Some?
    ensures IsSealStep(kit, steps, s)
    ensures var log, v := Replay(kit, steps), steps[s].0;
      && log != [] && log[|log| - 1].rec.body.Signoff?
      && (Told(log[..|log| - 1], v) <==> forall k :: Possible(kit, k, v) ==> FixesLanded(k, log, |log| - 1))
      && (Told(log[..|log| - 1], v) ==> FixesLanded(kit, log, |log| - 1))
  {
    s := SealStep(kit, steps);
    var before, v := Replay(kit, steps[..s]), steps[s].0;
    ReachableIsSound(kit, steps[..s]);
    hide AllLawful, Linked, Accepted, Attempt, FixesLanded, Told, Possible, ValidHistory;
    SealGuaranteesLaw(kit, before, v, steps[s].1);
    PossibleItself(kit, v);
    assert Replay(kit, steps)[..|before|] == before;
  }

  // ---------------------------------------------------------------------
  // The gate.
  // ---------------------------------------------------------------------

  /** Git answers what the gate asks: the landing of the sealed tree and of every recorded fix. */
  ghost predicate GateTold(log: Log, w: World)
    requires SealOf(log).Some? && SealOf(log).value.Signoff?
  {
    && w.answers(AskLanded(SealOf(log).value.tree))
    && forall f :: f in TriagesOf(log) && HasFix(TriagesOf(log)[f]) ==>
      w.answers(AskLanded(TriagesOf(log)[f].fix.value))
  }

  ghost predicate AllFixesIn(kit: Kit, log: Log, tree: string) {
    forall f :: f in TriagesOf(log) && HasFix(TriagesOf(log)[f]) ==> kit.isAncestor(TriagesOf(log)[f].fix.value, tree)
  }

  /** Sealed, cut from the sealed tree or a descendant, with the seal's anchors, and git answers. */
  ghost predicate FromTheSeal(kit: Kit, log: Log, w: World) {
    && SealOf(log).Some? && SealOf(log).value.Signoff? && w.ownRepo && GateTold(log, w)
    && kit.isAncestor(SealOf(log).value.tree, w.head) && w.anchors == Some(SealOf(log).value.anchors)
  }

  lemma GateParts(kit: Kit, log: Log, w: World)
    requires log != []
    ensures Gate(kit, log, w) == Green <==> FromTheSeal(kit, log, w) && AllFixesIn(kit, log, w.head)
  {
    if SealOf(log).Some? && SealOf(log).value.Signoff? && w.anchors.Some? {
      NoDrift(SealOf(log).value.anchors, w.anchors.value);
    }
    hide SealOf, TriagesOf, Drift, DeriveState, ClosureRefusals, HasFix;
  }

  /** Git told the sealing step enough for the gate: each fix's landing, if it told the head at all
      (a seal without a tree never opens the gate). */
  ghost predicate LandingTold(log: Log, v: World) {
    v.answers(AskHead) ==> forall f :: Recorded(log, f) ==>
      v.answers(AskLanded(FixOf(log, f))) || FixOf(log, f) == v.head
  }

  /** A signoff that is written, on a lawful ledger. */
  ghost predicate Seals(kit: Kit, log: Log, v: World, c: Command) {
    AllLawful(log) && c.SignOff? && Attempt(kit, log, v, c).Write?
  }

  /** The sealed ledger carries its seal, the tree git named, and the census it had before. */
  lemma SealedCensus(kit: Kit, before: Log, v: World, c: Command)
    requires Seals(kit, before, v, c)
    ensures var log := Step(kit, before, v, c);
      && log != [] && v.ownRepo
      && SealOf(log) == Some(Attempt(kit, before, v, c).body) && SealOf(log).value.Signoff?
      && SealOf(log).value.tree == (if v.answers(AskHead) then v.head else UNKNOWN)
      && TriagesOf(log) == TriagesOf(before) && FindingsOf(log) == FindingsOf(before)
      && TriagesOf(before).Keys <= FindingsOf(before).Keys
  {
    SignOffTree(kit, before, v, c);
    TriagesAreOnePerFinding(before);
    CensusStep(before, Chained(kit, before, v.now, Attempt(kit, before, v, c).body));
    if SealOf(before).Some? {
      SealedStays(kit, before, v, c);
    }
    hide AllLawful, Linked, Accepted, SealOf, TriagesOf, FindingsOf, Attempt, PassesOf, EngagementOf;
  }

  lemma FixesLiveOn(kit: Kit, log: Log, tree: string, w: World)
    requires ValidHistory(kit) && AllFixesIn(kit, log, tree) && kit.isAncestor(tree, w.head)
    ensures AllFixesIn(kit, log, w.head)
  {
    hide TriagesOf;
    forall f | f in TriagesOf(log) && HasFix(TriagesOf(log)[f])
      ensures kit.isAncestor(TriagesOf(log)[f].fix.value, w.head)
    {
      assert kit.isAncestor(TriagesOf(log)[f].fix.value, tree);
    }
  }

  lemma TheFixesLanded(kit: Kit, log: Log, v: World, c: Command, k: Kit)
    requires ValidHistory(kit) && AllLawful(log) && c.SignOff? && Attempt(kit, log, v, c).Write? && v.answers(AskHead)
    requires LandingTold(log, v) && Possible(kit, k, v)
    ensures AllFixesIn(k, log, v.head)
  {
    SignOffTree(kit, log, v, c);
    TriagesAreOnePerFinding(log);
    hide AllLawful, Attempt, FindingsOf, TriagesOf, HasFix, Possible, ValidHistory;
    forall f | f in TriagesOf(log) && HasFix(TriagesOf(log)[f])
      ensures k.isAncestor(TriagesOf(log)[f].fix.value, v.head)
    {
      assert Recorded(log, f);
      LandingGuaranteed(kit, log, v, c, f);
    }
  }

  /** A world cut from the seal itself in which git answers everything. */
  ghost function Candid(log: Log, v: World): World
    requires SealOf(log).Some? && SealOf(log).value.Signoff?
  {
    v.(ownRepo := true, answers := (a: Ask) => true, anchors := Some(SealOf(log).value.anchors))
  }

  /** The gate's answer follows from the seal alone: green exactly on a candidate cut from the
      sealed tree with the seal's anchors and with git answering, in every history that the
      sealing step could not tell from the real one.  That is so exactly when git told that step
      whether the fixes had landed; otherwise the last re-check of the fixes is not implied. */
  lemma GateIsGreenExactlyWhen(kit: Kit, steps: seq<(World, Command)>, s: nat)
    requires ValidHistory(kit) && IsSealStep(kit, steps, s)
    ensures var log, before, v := Replay(kit, steps), Replay(kit, steps[..s]), steps[s].0;
      && (LandingTold(before, v) <==>
            forall k, w :: Possible(kit, k, v) ==> (Gate(k, log, w) == Green <==> FromTheSeal(k, log, w)))
      && (LandingTold(before, v) ==> forall w :: Gate(kit, log, w) == Green <==> FromTheSeal(kit, log, w))
  {
    var before, v, c := Replay(kit, steps[..s]), steps[s].0, steps[s].1;
    hide *;
    SealStepSeals(kit, steps, s);
    GateFollows(kit, before, v, c);
  }

  lemma SealStepSeals(kit: Kit, steps: seq<(World, Command)>, s: nat)
    requires IsSealStep(kit, steps, s)
    ensures s < |steps| && Seals(kit, Replay(kit, steps[..s]), steps[s].0, steps[s].1)
    ensures Replay(kit, steps) == Step(kit, Replay(kit, steps[..s]), steps[s].0, steps[s].1)
  {
    ReachableIsSound(kit, steps[..s]);
    hide AllLawful, Accepted, Linked, Replay, Attempt;
  }

  lemma GateFollows(kit: Kit, before: Log, v: World, c: Command)
    requires ValidHistory(kit) && Seals(kit, before, v, c)
    ensures var log := Step(kit, before, v, c);
      && (LandingTold(before, v) <==>
            forall k, w :: Possible(kit, k, v) ==> (Gate(k, log, w) == Green <==> FromTheSeal(k, log, w)))
      && (LandingTold(before, v) ==> forall w :: Gate(kit, log, w) == Green <==> FromTheSeal(kit, log, w))
  {
    hide *;
    PossibleItself(kit, v);
    if LandingTold(before, v) {
      forall k, w | Possible(kit, k, v)
        ensures Gate(k, Step(kit, before, v, c), w) == Green <==> FromTheSeal(k, Step(kit, before, v, c), w)
      {
        GateNeedsNoRecheck(kit, before, v, c, k, w);
      }
    } else {
      var k := RecheckMatters(kit, before, v, c);
    }
  }

  lemma GateNeedsNoRecheck(kit: Kit, before: Log, v: World, c: Command, k: Kit, w: World)
    requires ValidHistory(kit) && Seals(kit, before, v, c) && Possible(kit, k, v) && LandingTold(before, v)
    ensures Gate(k, Step(kit, before, v, c), w) == Green <==> FromTheSeal(k, Step(kit, before, v, c), w)
  {
    var log := Step(kit, before, v, c);
    SealedCensus(kit, before, v, c);
    hide AllLawful, Gate, GateTold, Attempt, SealOf, TriagesOf, FindingsOf, LandingTold, SameLanding, SameDates, Step;
    GateParts(k, log, w);
    if FromTheSeal(k, log, w) {
      TheFixesLanded(kit, before, v, c, k);
      hide AllFixesIn;
      FixesLiveOn(k, before, v.head, w);
      SameFixes(k, before, log, w.head);
    }
  }

  lemma SameFixes(k: Kit, before: Log, log: Log, tree: string)
    requires TriagesOf(log) == TriagesOf(before)
    ensures AllFixesIn(k, log, tree) == AllFixesIn(k, before, tree)
  {
  }

  lemma RecheckMatters(kit: Kit, before: Log, v: World, c: Command) returns (k: Kit)
    requires ValidHistory(kit) && Seals(kit, before, v, c) && !LandingTold(before, v)
    ensures Possible(kit, k, v)
    ensures var log := Step(kit, before, v, c);
      && SealOf(log).Some? && SealOf(log).value.Signoff?
      && FromTheSeal(k, log, Candid(log, v)) && Gate(k, log, Candid(log, v)) != Green
  {
    var log := Step(kit, before, v, c);
    SealedCensus(kit, before, v, c);
    var f :| Recorded(before, f) && !v.answers(AskLanded(FixOf(before, f))) && FixOf(before, f) != v.head;
    hide Seals;
    k := Severed(kit, v, FixOf(before, f));
    SeveredIsPossible(kit, v, FixOf(before, f));
    hide AllLawful, Gate, Attempt, SealOf, TriagesOf, FindingsOf, HasFix, Step;
    GateParts(k, log, Candid(log, v));
  }

  /** On any ledger, reachable or not, green means that every recorded fix is an ancestor of HEAD. */
  lemma GreenMeansLanded(kit: Kit, log: Log, w: World, f: string)
    requires Gate(kit, log, w) == Green
    requires f in TriagesOf(log) && HasFix(TriagesOf(log)[f])
    ensures w.ownRepo && kit.isAncestor(TriagesOf(log)[f].fix.value, w.head)
  {
    assert log != [];
    hide Gate, SealOf, TriagesOf, HasFix;
    GateParts(kit, log, w);
  }

  /** What a green gate does guarantee: every recorded fix is an ancestor of HEAD, whatever git
      told the signoff.  The gate asks no dates: that a fix is not older than its finding holds
      in every history that neither the signoff nor the gate could tell from the real one, all of
      them green, exactly when git told the signoff the fix's date. */
  lemma GreenGuarantees(kit: Kit, before: Log, v: World, c: Command, w: World, f: string)
    requires ValidHistory(kit) && Seals(kit, before, v, c)
    requires Gate(kit, Step(kit, before, v, c), w) == Green && Recorded(before, f)
    ensures kit.isAncestor(FixOf(before, f), w.head)
    ensures forall k :: Possible(kit, k, v) && SameLanding(kit, k, w) ==>
      Step(k, before, v, c) == Step(kit, before, v, c) && Gate(k, Step(kit, before, v, c), w) == Green
    ensures ToldDate(before, v, f) <==>
      forall k :: Possible(kit, k, v) && SameLanding(kit, k, w) ==> k.committed(FixOf(before, f)) >= Filed(before, f)
  {
    var log, fix := Step(kit, before, v, c), FixOf(before, f);
    SealedCensus(kit, before, v, c);
    hide Attempt, SealOf, TriagesOf, FindingsOf, HasFix, Gate, Step;
    GateParts(kit, log, w);
    GreenMeansLanded(kit, log, w, f);
    forall k | Possible(kit, k, v) && SameLanding(kit, k, w)
      ensures Step(k, before, v, c) == log && Gate(k, log, w) == Green
    {
      SameStep(kit, k, before, v, c);
      GateParts(k, log, w);
    }
    DateGuaranteed(kit, before, v, c, f);
    if !ToldDate(before, v, f) {
      BackdatedIsPossible(kit, v, fix);
      assert SameLanding(kit, Backdated(kit, fix), w);
    }
  }

  /** A green gate stays green on a descendant HEAD with unmoved anchors exactly when git
      answers what the gate asks. */
  lemma GreenPersists(kit: Kit, log: Log, w: World, later: World)
    requires ValidHistory(kit) && Gate(kit, log, w) == Green
    requires kit.isAncestor(w.head, later.head) && later.anchors == w.anchors
    ensures SealOf(log).Some? && SealOf(log).value.Signoff?
    ensures Gate(kit, log, later) == Green <==> later.ownRepo && GateTold(log, later)
  {
    assert log != [];
    hide Gate, SealOf, TriagesOf, HasFix, GateTold;
    GateParts(kit, log, w);
    GateParts(kit, log, later);
    FixesLiveOn(kit, log, w.head, later);
    assert kit.isAncestor(SealOf(log).value.tree, w.head);
  }

  /** The gate is green in the very world of the signoff exactly when git told the signoff the
      head and answers what the gate asks. */
  lemma GreenAfterSeal(kit: Kit, log: Log, w: World, c: Command)
    requires ValidHistory(kit) && AllLawful(log) && c.SignOff? && Attempt(kit, log, w, c).Write?
    ensures var log' := Step(kit, log, w, c);
      && SealOf(log').Some? && SealOf(log').value.Signoff?
      && (Gate(kit, log', w) == Green <==> w.answers(AskHead) && GateTold(log', w))
  {
    var body := Attempt(kit, log, w, c).body;
    var log' := Step(kit, log, w, c);
    SignOffTree(kit, log, w, c);
    SignOffChecks(kit, log, w, c);
    SignOffAnchors(kit, log, w, c);
    CensusStep(log, Chained(kit, log, w.now, body));
    if SealOf(log).Some? {
      SealedStays(kit, log, w, c);
    }
    hide Attempt, AllLawful, Gate, SealOf, TriagesOf, FindingsOf, HasFix, PassesOf, EngagementOf;
    GateParts(kit, log', w);
  }

  lemma SignOffAnchors(kit: Kit, log: Log, w: World, c: Command)
    requires AllLawful(log) && c.SignOff? && Attempt(kit, log, w, c).Write?
    ensures w.anchors.Some? && Attempt(kit, log, w, c).body.anchors == w.anchors.value
  {
    EngagedLog(log);
    hide AllLawful, Accepted, ClosureRefusals, FindingsOf, TriagesOf, PassesOf, SealOf;
  }
}
