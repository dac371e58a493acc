/** Runs in which the audit's laws fail: seals that miss the landing law, a gate that is green
    all the same, and writes that no reader accepts. */
module AuditRuns {
  import opened Options
  import opened Ledger
  import opened FinalAudit
  import opened AuditLaws
  import opened AuditSeals

  // ---------------------------------------------------------------------
  // Seals that miss the landing law.
  // ---------------------------------------------------------------------

  /** One careful command on an accepted ledger. */
  lemma OneStep(kit: Kit, steps: seq<(World, Command)>, w: World, c: Command, body: Body)
    requires Accepted(kit, Replay(kit, steps)) && CarefulCaller(Replay(kit, steps), c)
    requires Decide(kit, Replay(kit, steps), w, c) == Write(body)
    ensures var log, log' := Replay(kit, steps), Replay(kit, steps + [(w, c)]);
            log' == log + [Chained(kit, log, w.now, body)] && Accepted(kit, log')
  {
    hide Accepted, Decide, CarefulCaller, Linked, AllLawful;
    assert (steps + [(w, c)])[..|steps|] == steps;
    ReachableIsSound(kit, steps);
    WriterReaderAgree(kit, Replay(kit, steps), w, c);
  }

  /** A tree that is not its own repository. */
  function Tarball(now: nat): World {
    World(false, "h", _ => false, _ => false, Some(PINNED), Some({"g"}), {}, "p", now)
  }

  /** The ledger after `steps` has this census. */
  ghost predicate Stage(kit: Kit, steps: seq<(World, Command)>, n: nat, eng: Body, passes: seq<Body>,
                        findings: map<string, Record>, triages: map<string, Body>) {
    var log := Replay(kit, steps);
    && Accepted(kit, log) && AllLawful(log) && |log| == n
    && EngagementOf(log) == Some(eng) && PassesOf(log) == passes
    && FindingsOf(log) == findings && TriagesOf(log) == triages && SealOf(log) == None
  }

  const PINNED: Anchors := Anchors(1, 2, 3)

  ghost function Contract(window: string): Body {
    Engagement("p", "f", ["a"], window, "b", PINNED)
  }

  ghost function FirstPass(): Body {
    Evidence("a", Auditor, true, UNKNOWN, PINNED, {}, Passed, 1, 1, [])
  }

  ghost function Answer(fix: string): Body {
    Triage("p", FormatId(1), "accepted", "r", Some(fix))
  }

  lemma TarballNow(now: nat)
    ensures Tarball(now).now == now
  {
  }

  lemma ContractIsWritten(kit: Kit, window: string, now: nat)
    requires kit.windowOk(window)
    ensures var c := Engage("p", "f", ["a"], window, "b");
            Decide(kit, [], Tarball(now), c) == Write(Contract(window)) && CarefulCaller([], c)
  {
    var names := ["a"];
    assert names[..0] == [] && names[0] == "a";
    assert NonEmpty(names) == names;
    assert "p" !in names;
    hide NonEmpty, WellShaped;
  }

  lemma StageZero(kit: Kit, window: string, now: nat) returns (steps: seq<(World, Command)>)
    requires kit.windowOk(window)
    ensures Stage(kit, steps, 1, Contract(window), [], map[], map[])
    ensures |steps| == 1
  {
    var c0 := Engage("p", "f", ["a"], window, "b");
    steps := [];
    EmptyIsSound(kit);
    assert Accepted(kit, []) && Replay(kit, steps) == [];
    assert SealOf([]) == None && PassesOf([]) == [] && FindingsOf([]) == map[] && TriagesOf([]) == map[];
    hide *;
    ContractIsWritten(kit, window, now);
    OneStep(kit, steps, Tarball(now), c0, Contract(window));
    CensusStep([], Chained(kit, [], Tarball(now).now, Contract(window)));
    steps := steps + [(Tarball(now), c0)];
    ReachableIsSound(kit, steps);
    SoundIsLawful(kit, steps);
    StageOf(kit, steps, 1, Contract(window), [], map[], map[]);
  }

  lemma SoundIsLawful(kit: Kit, steps: seq<(World, Command)>)
    requires Sound(kit, Replay(kit, steps))
    ensures AllLawful(Replay(kit, steps))
  {
  }

  lemma StageOf(kit: Kit, steps: seq<(World, Command)>, n: nat, eng: Body, passes: seq<Body>,
                findings: map<string, Record>, triages: map<string, Body>)
    requires Accepted(kit, Replay(kit, steps)) && AllLawful(Replay(kit, steps)) && |Replay(kit, steps)| == n
    requires EngagementOf(Replay(kit, steps)) == Some(eng) && PassesOf(Replay(kit, steps)) == passes
    requires FindingsOf(Replay(kit, steps)) == findings && TriagesOf(Replay(kit, steps)) == triages
    requires SealOf(Replay(kit, steps)) == None
    ensures Stage(kit, steps, n, eng, passes, findings, triages)
  {
  }

  /** A further careful command, neither engaging nor sealing, moves the census on. */
  lemma StageMove(kit: Kit, steps: seq<(World, Command)>, w: World, c: Command, body: Body, n: nat, eng: Body,
                  passes: seq<Body>, findings: map<string, Record>, triages: map<string, Body>)
    requires Stage(kit, steps, n, eng, passes, findings, triages) && n > 0
    requires CarefulCaller(Replay(kit, steps), c) && Decide(kit, Replay(kit, steps), w, c) == Write(body)
    requires !body.Signoff? && (body.Triage? ==> body.finding !in triages)
    ensures var rec := Chained(kit, Replay(kit, steps), w.now, body).rec;
      Stage(kit, steps + [(w, c)], n + 1, eng, if body.Evidence? then passes + [body] else passes,
            if body.Finding? then findings[body.id := rec] else findings,
            if body.Triage? then triages[body.finding := body] else triages)
  {
    hide CarefulCaller, Decide, Replay, Accepted, AllLawful, Linked, FindingsOf, TriagesOf, PassesOf, EngagementOf;
    hide SealOf;
    var e := Chained(kit, Replay(kit, steps), w.now, body);
    OneStep(kit, steps, w, c, body);
    CensusStep(Replay(kit, steps), e);
    ReachableIsSound(kit, steps + [(w, c)]);
  }

  lemma PassIsWritten(kit: Kit, log: Log, window: string, now: nat)
    requires EngagementOf(log) == Some(Contract(window)) && SealOf(log) == None
    ensures var c := RunPass("a", Check(true, 1, 1, []));
            Decide(kit, log, Tarball(now), c) == Write(FirstPass()) && CarefulCaller(log, c)
  {
    NoDrift(PINNED, PINNED);
    hide EngagementOf, SealOf, Drift;
  }

  const FOUND: Command := File("a", "g", "low", "t", None, Some("x"))

  ghost function Found(n: nat): Body {
    Finding(FormatId(n), "a", "g", "low", "t", ByText, "x")
  }

  lemma FindingIsWritten(kit: Kit, log: Log, window: string, now: nat)
    requires EngagementOf(log) == Some(Contract(window)) && SealOf(log) == None && AllLawful(log)
    ensures Decide(kit, log, Tarball(now), FOUND) == Write(Found(1 + Count(IsFinding, log)))
    ensures CarefulCaller(log, FOUND) <==> Count(IsFinding, log) < 999
  {
    NumbersAreCounts(log);
    hide EngagementOf, SealOf, FindingsOf, AllLawful, FormatId, MaxFindingNumber, Count;
  }

  lemma AnswerIsWritten(kit: Kit, log: Log, window: string, fix: string, filed: Record, now: nat)
    requires EngagementOf(log) == Some(Contract(window)) && SealOf(log) == None && IsHex40(fix)
    requires FindingsOf(log) == map[FormatId(1) := filed] && TriagesOf(log) == map[]
    ensures var c := Respond("p", FormatId(1), "accepted", "r", fix);
            Decide(kit, log, Tarball(now), c) == Write(Answer(fix)) && CarefulCaller(log, c)
  {
    FormatIdIsReadable(1);
    assert fix != "";
    hide EngagementOf, SealOf, FindingsOf, TriagesOf, FormatId, IsHex40, IsFindingId;
  }

  lemma StageOne(kit: Kit, window: string, now: nat) returns (steps: seq<(World, Command)>)
    requires kit.windowOk(window)
    ensures Stage(kit, steps, 2, Contract(window), [FirstPass()], map[], map[])
    ensures |steps| == 2
  {
    steps := StageZero(kit, window, now);
    assert FirstPass().Evidence?;
    hide FirstPass, Contract, Tarball, Decide, CarefulCaller, Replay, Accepted, AllLawful, FindingsOf, TriagesOf;
    hide PassesOf, EngagementOf, SealOf;
    var w, c := Tarball(now), RunPass("a", Check(true, 1, 1, []));
    PassIsWritten(kit, Replay(kit, steps), window, now);
    StageMove(kit, steps, w, c, FirstPass(), 1, Contract(window), [], map[], map[]);
    steps := steps + [(w, c)];
    assert [] + [FirstPass()] == [FirstPass()];
  }

  lemma StageTwo(kit: Kit, window: string, fix: string, now: nat)
    returns (steps: seq<(World, Command)>, filed: Record)
    requires kit.windowOk(window) && IsHex40(fix)
    ensures Stage(kit, steps, 4, Contract(window), [FirstPass()], map[FormatId(1) := filed],
      map[FormatId(1) := Answer(fix)])
    ensures filed.timestamp == now && |steps| == 4
  {
    steps := StageOne(kit, window, now);
    var w, eng, id := Tarball(now), Contract(window), FormatId(1);
    hide Decide, CarefulCaller, Replay, Accepted, AllLawful, FindingsOf, TriagesOf, PassesOf, EngagementOf, SealOf;
    hide FormatId, IsHex40, Contract, FirstPass, Tarball;
    assert w.now == now by { TarballNow(now); }
    FindingIdsAreSequential(Replay(kit, steps));
    FindingIsWritten(kit, Replay(kit, steps), window, now);
    var found := Found(1);
    StageMove(kit, steps, w, FOUND, found, 2, eng, [FirstPass()], map[], map[]);
    filed := Chained(kit, Replay(kit, steps), now, found).rec;
    steps := steps + [(w, FOUND)];
    var c := Respond("p", id, "accepted", "r", fix);
    AnswerIsWritten(kit, Replay(kit, steps), window, fix, filed, now);
    StageMove(kit, steps, w, c, Answer(fix), 3, eng, [FirstPass()], map[id := filed], map[]);
    steps := steps + [(w, c)];
    assert map[][id := filed] == map[id := filed];
  }

  /** A repository of the audited tree that contradicts nothing about this fix when asked. */
  ghost predicate Uncontradicted(kit: Kit, v: World, fix: string, filed: nat) {
    && v.ownRepo && v.anchors == Some(PINNED) && v.answers(AskHead)
    && (v.answers(AskLanded(fix)) ==> kit.isAncestor(fix, v.head))
    && (v.answers(AskTime(fix)) ==> kit.committed(fix) >= filed)
  }

  lemma NoLawBroken(kit: Kit, log: Log, v: World, eng: Body, filed: Record, fix: string)
    requires eng.Engagement? && eng.anchors == PINNED && EngagementOf(log) == Some(eng)
    requires PassesOf(log) == [FirstPass()]
    requires FindingsOf(log) == map[FormatId(1) := filed] && TriagesOf(log) == map[FormatId(1) := Answer(fix)]
    requires Uncontradicted(kit, v, fix, filed.timestamp)
    ensures ClosureRefusals(kit, log, v) == {}
  {
    hide ClosureRefusals, FormatId, FindingsOf, TriagesOf, PassesOf, EngagementOf;
    ClosureLaws(kit, log, v);
    assert [FirstPass()][0] == FirstPass();
    assert FixesStand(kit, FindingsOf(log), TriagesOf(log), v);
  }

  /** The run: engage, one independent pass, one finding, its acceptance from a tarball, and the
      signoff, in any repository that contradicts nothing when asked. */
  lemma SealedRun(kit: Kit, window: string, fix: string, filed: nat, v: World) returns (steps: seq<(World, Command)>)
    requires kit.windowOk(window) && IsHex40(fix) && Uncontradicted(kit, v, fix, filed)
    ensures |steps| == 5 && steps[4].0 == v && IsSealStep(kit, steps, 4)
    ensures var before := Replay(kit, steps[..4]);
      |before| == 4 && Recorded(before, FormatId(1)) && FixOf(before, FormatId(1)) == fix
      && Filed(before, FormatId(1)) == filed && TriagesOf(before).Keys == {FormatId(1)}
  {
    var rec;
    steps, rec := StageTwo(kit, window, fix, filed);
    hide *;
    var c := SignOff("p");
    var body := SignOffIsWritten(kit, steps, window, fix, rec, v);
    OneStep(kit, steps, v, c, body);
    RecordedOne(kit, steps, window, fix, rec);
    ghost var all := steps + [(v, c)];
    assert all[..4] == steps;
    SealStepIs(kit, steps, v, c, body);
    steps := all;
  }

  lemma SignOffIsWritten(kit: Kit, steps: seq<(World, Command)>, window: string, fix: string, rec: Record, v: World)
    returns (body: Body)
    requires Stage(kit, steps, 4, Contract(window), [FirstPass()], map[FormatId(1) := rec],
      map[FormatId(1) := Answer(fix)])
    requires Uncontradicted(kit, v, fix, rec.timestamp)
    ensures Accepted(kit, Replay(kit, steps)) && CarefulCaller(Replay(kit, steps), SignOff("p"))
    ensures Decide(kit, Replay(kit, steps), v, SignOff("p")) == Write(body)
  {
    var log := Replay(kit, steps);
    NoLawBroken(kit, log, v, Contract(window), rec, fix);
    hide Accepted, AllLawful, Replay, ClosureRefusals, FormatId, FindingsOf, TriagesOf, PassesOf, EngagementOf, SealOf;
    hide CountIndependent, GitSha, FirstPass, Answer;
    body := Decide(kit, log, v, SignOff("p")).body;
  }

  lemma SealStepIs(kit: Kit, steps: seq<(World, Command)>, v: World, c: Command, body: Body)
    requires Accepted(kit, Replay(kit, steps)) && Decide(kit, Replay(kit, steps), v, c) == Write(body) && c.SignOff?
    ensures IsSealStep(kit, steps + [(v, c)], |steps|)
  {
    hide Accepted, Decide;
    var all := steps + [(v, c)];
    assert all[..|all| - 1] == steps;
  }

  lemma RecordedOne(kit: Kit, steps: seq<(World, Command)>, window: string, fix: string, rec: Record)
    requires Stage(kit, steps, 4, Contract(window), [FirstPass()], map[FormatId(1) := rec],
      map[FormatId(1) := Answer(fix)])
    ensures var before := Replay(kit, steps);
      |before| == 4 && Recorded(before, FormatId(1)) && FixOf(before, FormatId(1)) == fix
      && Filed(before, FormatId(1)) == rec.timestamp && TriagesOf(before).Keys == {FormatId(1)}
  {
    hide FormatId, Replay, Accepted, AllLawful, FindingsOf, TriagesOf, PassesOf, EngagementOf, SealOf, FirstPass;
  }

  function Repository(now: nat, answers: Ask -> bool): World {
    Tarball(now).(ownRepo := true, answers := answers)
  }

  /** When git does not say whether a fix has landed, a fix that never landed is sealed. */
  lemma SilentGitSealsAnUnlandedFix(kit: Kit, window: string, fix: string) returns (steps: seq<(World, Command)>)
    requires kit.windowOk(window) && IsHex40(fix) && !kit.isAncestor(fix, "h")
    ensures var log := Replay(kit, steps);
            |log| == 5 && log[4].rec.body.Signoff? && log[4].rec.body.tree == "h" && !FixesLanded(kit, log, 4)
  {
    var v := Repository(0, (a: Ask) => a.AskHead?);
    steps := SealedRun(kit, window, fix, 0, v);
    SealedEntry(kit, steps, 4);
    hide Replay, Recorded, FixOf, Filed, TriagesOf;
  }

  lemma SealedEntry(kit: Kit, steps: seq<(World, Command)>, s: nat)
    requires IsSealStep(kit, steps, s)
    ensures var log, before, v := Replay(kit, steps), Replay(kit, steps[..s]), steps[s].0;
      && |log| == |before| + 1 && log[..|before|] == before && log[|before|].rec.body.Signoff?
      && log[|before|].rec.body.tree == if v.answers(AskHead) then v.head else UNKNOWN
  {
    var before, v, c := Replay(kit, steps[..s]), steps[s].0, steps[s].1;
    ReachableIsSound(kit, steps[..s]);
    SignOffTree(kit, before, v, c);
    assert Step(kit, before, v, c)[..|before|] == before;
    hide AllLawful, Linked, Accepted, Replay, Attempt;
  }

  /** When git does not date a fix, a fix older than its finding is sealed, and the gate is green. */
  lemma SilentDateIsGreen(kit: Kit, window: string, fix: string, filed: nat)
    returns (steps: seq<(World, Command)>, w: World)
    requires ValidHistory(kit) && kit.windowOk(window) && IsHex40(fix)
    requires kit.isAncestor(fix, "h") && kit.committed(fix) < filed
    ensures IsSealStep(kit, steps, 4) && Gate(kit, Replay(kit, steps), w) == Green
    ensures Recorded(Replay(kit, steps[..4]), FormatId(1))
    ensures kit.committed(FixOf(Replay(kit, steps[..4]), FormatId(1))) < Filed(Replay(kit, steps[..4]), FormatId(1))
  {
    w := Repository(filed, (a: Ask) => !a.AskTime?);
    steps := SealedRun(kit, window, fix, filed, w);
    var before := Replay(kit, steps[..4]);
    ReachableIsSound(kit, steps[..4]);
    hide AllLawful, Linked, Accepted, Replay, Attempt, Step, Gate, Recorded, FixOf, Filed, TriagesOf, SealOf;
    GreenAfterSeal(kit, before, w, steps[4].1);
  }

  // ---------------------------------------------------------------------
  // Writes that no reader accepts.
  // ---------------------------------------------------------------------

  /** A ledger that does not read back is never written again, by any commands in any worlds. */
  lemma {:induction false} UnreadableForever(kit: Kit, steps: seq<(World, Command)>, more: seq<(World, Command)>)
    requires !Accepted(kit, Replay(kit, steps))
    ensures Replay(kit, steps + more) == Replay(kit, steps)
    decreases |more|
  {
    hide Accepted, Decide;
    if more == [] {
      assert steps + more == steps;
    } else {
      var front := more[..|more| - 1];
      assert (steps + more)[..|steps + more| - 1] == steps + front;
      UnreadableForever(kit, steps, front);
    }
  }

  /** One careless command that is written ends the ledger's life: no reader accepts it again. */
  lemma CarelessWriteIsForever(kit: Kit, steps: seq<(World, Command)>, w: World, c: Command,
                               more: seq<(World, Command)>)
    requires Attempt(kit, Replay(kit, steps), w, c).Write? && !CarefulCaller(Replay(kit, steps), c)
    ensures var bad := steps + [(w, c)];
      |Replay(kit, bad)| == |Replay(kit, steps)| + 1
      && !Accepted(kit, Replay(kit, bad)) && Replay(kit, bad + more) == Replay(kit, bad)
  {
    hide Accepted, Attempt, CarefulCaller, Linked, AllLawful;
    var bad := steps + [(w, c)];
    assert bad[..|bad| - 1] == steps;
    ReachableIsSound(kit, steps);
    WriterReaderAgree(kit, Replay(kit, steps), w, c);
    UnreadableForever(kit, bad, more);
  }

  /** The argument parser lets an empty firm through; the first entry is then already unreadable. */
  lemma EmptyFirmIsWritten(kit: Kit, window: string, more: seq<(World, Command)>)
    requires kit.windowOk(window)
    ensures var bad := [(Tarball(0), Engage("p", "", ["a"], window, "b"))];
      |Replay(kit, bad)| == 1 && !Accepted(kit, Replay(kit, bad)) && Replay(kit, bad + more) == Replay(kit, bad)
  {
    var names, c := ["a"], Engage("p", "", ["a"], window, "b");
    assert names[..0] == [] && names[0] == "a";
    assert NonEmpty(names) == names && "p" !in names;
    hide NonEmpty;
    assert Replay(kit, []) == [];
    EmptyIsSound(kit);
    assert Accepted(kit, []) && Attempt(kit, [], Tarball(0), c).Write? && !CarefulCaller([], c);
    hide *;
    CarelessWriteIsForever(kit, [], Tarball(0), c, more);
    assert [] + [(Tarball(0), c)] == [(Tarball(0), c)];
  }

  /** A run of an engagement and `n` findings, all of it read back. */
  lemma {:induction false} FiledRun(kit: Kit, window: string, n: nat) returns (steps: seq<(World, Command)>)
    requires kit.windowOk(window) && n <= 999
    ensures var log := Replay(kit, steps);
      && Accepted(kit, log) && AllLawful(log) && Count(IsFinding, log) == n
      && EngagementOf(log) == Some(Contract(window)) && SealOf(log) == None
  {
    if n == 0 {
      steps := StageZero(kit, window, 0);
      FindingIdsAreSequential(Replay(kit, steps));
    } else {
      steps := FiledRun(kit, window, n - 1);
      var log, w := Replay(kit, steps), Tarball(0);
      hide Decide, CarefulCaller, Replay, Accepted, AllLawful, Linked, EngagementOf, SealOf, Contract, FormatId;
      hide Tarball;
      FindingIsWritten(kit, log, window, 0);
      TarballNow(0);
      OneStep(kit, steps, w, FOUND, Found(n));
      CensusStep(log, Chained(kit, log, 0, Found(n)));
      CountSnoc(log, Chained(kit, log, 0, Found(n)));
      EngagedStays(log, window);
      steps := steps + [(w, FOUND)];
      ReachableIsSound(kit, steps);
      SoundIsLawful(kit, steps);
    }
  }

  lemma CountSnoc(log: Log, e: Entry)
    ensures Count(IsFinding, log + [e]) == Count(IsFinding, log) + if e.rec.body.Finding? then 1 else 0
  {
    assert (log + [e])[..|log|] == log;
  }

  lemma EngagedStays(log: Log, window: string)
    requires EngagementOf(log) == Some(Contract(window))
    ensures log != []
  {
  }

  /** The thousandth finding is written with an id of four digits, which no reader accepts. */
  lemma ThousandthFindingIsWritten(kit: Kit, window: string, more: seq<(World, Command)>)
    returns (steps: seq<(World, Command)>)
    requires kit.windowOk(window)
    ensures var bad := steps + [(Tarball(0), FOUND)];
      && Accepted(kit, Replay(kit, steps)) && Count(IsFinding, Replay(kit, steps)) == 999
      && |Replay(kit, bad)| == |Replay(kit, steps)| + 1
      && !Accepted(kit, Replay(kit, bad)) && Replay(kit, bad + more) == Replay(kit, bad)
  {
    steps := FiledRun(kit, window, 999);
    hide Decide, CarefulCaller, Replay, Accepted, AllLawful, EngagementOf, SealOf, Contract, FormatId, Tarball;
    FindingIsWritten(kit, Replay(kit, steps), window, 0);
    CarelessWriteIsForever(kit, steps, Tarball(0), FOUND, more);
  }
}
