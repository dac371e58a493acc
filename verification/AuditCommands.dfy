/** When each command of the audit is written, what it writes, and why it is refused otherwise. */
module AuditCommands {
  import opened Sequences
  import opened Options
  import opened Ledger
  import opened FinalAudit
  import opened AuditLaws
  import opened AuditCensus

  /** Who speaks: the name given, or the tree's own identity. */
  ghost function Speaker(given: string, w: World): string {
    if given == "" then w.actor else given
  }

  // ---------------------------------------------------------------------
  // When a command is written.
  // ---------------------------------------------------------------------

  ghost predicate MayEngage(kit: Kit, log: Log, w: World, c: Command)
    requires c.Engage?
  {
    && log == [] && (exists n :: n in c.auditors && n != "") && Speaker(c.who, w) !in c.auditors
    && kit.windowOk(c.window) && w.anchors.Some? && w.scope.Some?
  }

  /** One reproducer, and if it is a path, one that exists. */
  ghost predicate OneReproducer(w: World, c: Command)
    requires c.File?
  {
    (c.reproPath == None <==> c.reproText.Some?) && (c.reproPath.Some? ==> c.reproPath.value in w.files)
  }

  ghost predicate IsSeverity(s: string) {
    s == "critical" || s == "high" || s == "medium" || s == "low" || s == "info"
  }

  ghost predicate IsVerdict(s: string) {
    s == "accepted" || s == "disputed" || s == "out-of-scope"
  }

  ghost predicate MayFile(roster: seq<string>, w: World, c: Command)
    requires c.File?
  {
    && Speaker(c.who, w) in roster && w.scope.Some? && c.against in w.scope.value
    && IsSeverity(c.severity) && c.title != "" && OneReproducer(w, c)
  }

  /** Forty lower-case hexadecimal digits. */
  ghost predicate IsCommitId(s: string) {
    |s| == 40 && forall i :: 0 <= i < 40 ==> '0' <= s[i] <= '9' || 'a' <= s[i] <= 'f'
  }

  /** Git raises no objection to the fix: it does not deny that the commit exists; and if it says that it
      does, it neither denies that it has landed nor dates it before the finding. */
  ghost predicate Unopposed(kit: Kit, log: Log, w: World, finding: string, fix: string) {
    && !SaidMissing(w, fix)
    && (SaidPresent(w, fix) ==>
          && !SaidUnlanded(kit, w, fix)
          && forall j: nat :: FiledAt(log, j, finding) ==> !SaidOlder(kit, w, fix, log[j].rec.timestamp))
  }

  ghost predicate MayRespond(kit: Kit, log: Log, roster: seq<string>, w: World, c: Command)
    requires c.Respond?
  {
    && Speaker(c.who, w) !in roster && Filed(log, c.finding) && !Triaged(log, c.finding) && c.reason != ""
    && (if c.verdict == "accepted" then IsCommitId(c.fix) && Unopposed(kit, log, w, c.finding, c.fix)
        else IsVerdict(c.verdict) && c.fix == "")
  }

  ghost predicate MaySignOff(kit: Kit, log: Log, roster: seq<string>, w: World, c: Command)
    requires c.SignOff? && log != []
  {
    Speaker(c.who, w) !in roster && forall law :: !Breaks(kit, log, w, law)
  }

  /** The command may be written to this ledger, which the reader accepts. */
  ghost predicate May(kit: Kit, log: Log, w: World, c: Command) {
    if c.Engage? then MayEngage(kit, log, w, c)
    else
      && log != [] && log[0].rec.body.Engagement? && !Closed(log)
      && match c
         case RunPass(_, _) => w.anchors.Some? && w.scope.Some?
         case File(_, _, _, _, _, _) => MayFile(log[0].rec.body.roster, w, c)
         case Respond(_, _, _, _, _) => MayRespond(kit, log, log[0].rec.body.roster, w, c)
         case SignOff(_) => MaySignOff(kit, log, log[0].rec.body.roster, w, c)
  }

  // ---------------------------------------------------------------------
  // What is written.
  // ---------------------------------------------------------------------

  /** The tree a command names: HEAD, if git tells it. */
  ghost predicate NamesHead(w: World, tree: string) {
    tree == if w.ownRepo && w.answers(AskHead) then w.head else "unknown (not a git tree)"
  }

  /** The positions of the entries with the property. */
  ghost function Where(p: Body -> bool, log: Log): set<nat> {
    set j: nat | j < |log| && p(log[j].rec.body)
  }

  /** How many entries have the property. */
  ghost function Number(p: Body -> bool, log: Log): nat {
    |Where(p, log)|
  }

  lemma WhereSnoc(p: Body -> bool, log: Log, e: Entry)
    ensures Where(p, log + [e]) == Where(p, log) + if p(e.rec.body) then {|log|} else {}
    ensures |log| !in Where(p, log) && Where(p, []) == {}
  {
  }

  lemma {:induction false} CountIsNumber(p: Body -> bool, log: Log)
    ensures Count(p, log) == Number(p, log)
  {
    hide Where;
    if log == [] {
      WhereSnoc(p, log, Entry(Record(0, 0, 0, Signoff("", "", Anchors(0, 0, 0), 0, 0, 0, 0, 0)), 0));
    } else {
      var front, last := log[..|log| - 1], log[|log| - 1];
      CountIsNumber(p, front);
      WhereSnoc(p, front, last);
      assert log == front + [last];
    }
  }

  /** The entry carries the command's own fields, the live anchors, and the census of the ledger. */
  ghost predicate Carries(log: Log, w: World, c: Command, b: Body)
    requires !c.Engage? ==> log != [] && log[0].rec.body.Engagement?
  {
    b.who == Speaker(c.who, w) &&
    match c
    case Engage(_, firm, auditors, window, basis) =>
      && b.Engagement? && b.firm == firm && b.window == window && b.basis == basis && w.anchors == Some(b.anchors)
      && Selects((n: string) => n != "", auditors, b.roster)
    case RunPass(_, check) =>
      var eng := log[0].rec.body;
      && b.Evidence? && (b.independent <==> b.who in eng.roster) && (b.role == Auditor <==> b.who in eng.roster)
      && NamesHead(w, b.tree) && w.anchors == Some(b.anchors)
      && (forall n: AnchorName :: n in b.drift <==> eng.anchors.Get(n) != b.anchors.Get(n))
      && (b.outcome == Passed <==> check.ok) && b.verified == check.verified && b.total == check.total
      && b.refusals == if check.ok then [] else check.refusals
    case File(_, against, severity, title, path, text) =>
      && b.Finding? && b.against == against && b.severity == severity && b.title == title
      && b.id == FormatId(1 + Number(IsFinding, log))
      && (path.Some? ==> b.mode == ByPath && b.repro == path.value)
      && (text.Some? ==> b.mode == ByText && b.repro == text.value)
    case Respond(_, finding, verdict, reason, fix) =>
      && b.Triage? && b.finding == finding && b.verdict == verdict && b.reason == reason
      && b.fix == if verdict == "accepted" then Some(fix) else None
    case SignOff(_) =>
      && b.Signoff? && NamesHead(w, b.tree) && w.anchors == Some(b.anchors)
      && b.passes == Number(IsPass, log) && b.independentPasses == Number(IsIndependentPass, log)
      && b.findings == Number(IsFinding, log) && b.triages == Number(IsTriage, log) && b.fixes == Number(IsFix, log)
  }

  lemma {:induction false} NonEmptySelects(names: seq<string>)
    ensures Selects((n: string) => n != "", names, NonEmpty(names))
  {
    var p := (n: string) => n != "";
    hide Selects;
    if names == [] {
      SelectsNone(p);
    } else {
      var front, last := names[..|names| - 1], names[|names| - 1];
      NonEmptySelects(front);
      SelectsSnoc(p, front, NonEmpty(front), last);
      assert names == front + [last];
      assert NonEmpty(front) + [] == NonEmpty(front);
    }
  }

  lemma {:induction false} NonEmptyMembers(names: seq<string>)
    ensures forall n :: n in NonEmpty(names) <==> n in names && n != ""
  {
    if names != [] {
      NonEmptyMembers(names[..|names| - 1]);
      assert names == names[..|names| - 1] + [names[|names| - 1]];
    }
  }

  lemma EngageWritten(kit: Kit, log: Log, w: World, c: Command)
    requires AllLawful(log) && c.Engage?
    ensures DecideEngage(kit, log, w, c).Write? <==> MayEngage(kit, log, w, c)
    ensures DecideEngage(kit, log, w, c).Write? ==> Carries(log, w, c, DecideEngage(kit, log, w, c).body)
  {
    NonEmptySelects(c.auditors);
    NonEmptyMembers(c.auditors);
    if log != [] {
      EngagedLog(log);
    }
    hide NonEmpty, Selects, AllLawful;
    assert NonEmpty(c.auditors) != [] <==> exists n :: n in c.auditors && n != "" by {
      if NonEmpty(c.auditors) != [] {
        assert NonEmpty(c.auditors)[0] in NonEmpty(c.auditors);
      }
    }
  }

  lemma PassWritten(log: Log, w: World, c: Command)
    requires log != [] && log[0].rec.body.Engagement? && c.RunPass?
    ensures DecidePass(log[0].rec.body, w, c).Write? <==> w.anchors.Some? && w.scope.Some?
    ensures DecidePass(log[0].rec.body, w, c).Write? ==> Carries(log, w, c, DecidePass(log[0].rec.body, w, c).body)
  {
    if w.anchors.Some? {
      DriftIs(log[0].rec.body.anchors, w.anchors.value);
    }
    hide Drift;
  }

  lemma FileWritten(log: Log, w: World, c: Command)
    requires AllLawful(log) && log != [] && log[0].rec.body.Engagement? && c.File?
    ensures var eng := log[0].rec.body;
      && (DecideFile(eng, log, w, c).Write? <==> MayFile(eng.roster, w, c))
      && (DecideFile(eng, log, w, c).Write? ==> Carries(log, w, c, DecideFile(eng, log, w, c).body))
  {
    NumbersAreCounts(log);
    CountIsNumber(IsFinding, log);
    hide AllLawful, FormatId, MaxFindingNumber, Count, Number;
  }

  lemma Verdicts(s: string)
    ensures s in VERDICTS <==> IsVerdict(s)
    ensures s == "accepted" ==> IsVerdict(s)
  {
  }

  lemma HexDigits(s: string)
    ensures IsHex40(s) <==> IsCommitId(s)
  {
  }

  /** A filed finding has a readable id. */
  lemma FiledIsReadable(kit: Kit, log: Log, f: string)
    requires Accepted(kit, log) && Filed(log, f)
    ensures IsFindingId(f)
  {
    var j: nat :| FiledAt(log, j, f);
    assert WellShaped(kit, log[j].rec.body);
  }

  /** Git dates the fix before the finding. */
  ghost predicate SaidBefore(kit: Kit, log: Log, w: World, finding: string, fix: string) {
    exists j: nat :: FiledAt(log, j, finding) && SaidOlder(kit, w, fix, log[j].rec.timestamp)
  }

  lemma FiledOnce(kit: Kit, log: Log, w: World, f: string, fix: string)
    requires AllLawful(log) && f in FindingsOf(log)
    ensures TooEarly(kit, w, fix, FindingsOf(log)[f].timestamp) <==> SaidBefore(kit, log, w, f, fix)
  {
    TooEarlySaid(kit, w, fix, FindingsOf(log)[f].timestamp);
    hide TooEarly, SaidOlder, AllLawful, FindingsOf;
    var i := FindingAt(log, f);
    assert FiledAt(log, i, f);
    forall j: nat | FiledAt(log, j, f)
      ensures log[j].rec == FindingsOf(log)[f]
    {
      FindingEntry(log, j, f);
    }
  }

  lemma FixUnopposed(kit: Kit, log: Log, w: World, f: string, fix: string)
    requires AllLawful(log) && f in FindingsOf(log)
    ensures var known := CommitExists(w, fix);
      Unopposed(kit, log, w, f, fix) <==>
        && known != Some(false)
        && (known.Some? ==>
              CommitLanded(kit, w, fix) != Some(false) && !TooEarly(kit, w, fix, FindingsOf(log)[f].timestamp))
  {
    FiledOnce(kit, log, w, f, fix);
    hide TooEarly, AllLawful, FindingsOf, FiledAt, SaidOlder;
  }

  lemma RespondWritten(kit: Kit, log: Log, w: World, c: Command)
    requires Accepted(kit, log) && AllLawful(log) && log != [] && log[0].rec.body.Engagement? && c.Respond?
    ensures var eng := log[0].rec.body;
      && (DecideRespond(kit, eng, log, w, c).Write? <==> MayRespond(kit, log, eng.roster, w, c))
      && (DecideRespond(kit, eng, log, w, c).Write? ==> Carries(log, w, c, DecideRespond(kit, eng, log, w, c).body))
  {
    CensusByEntries(log);
    HexDigits(c.fix);
    if Filed(log, c.finding) {
      FiledIsReadable(kit, log, c.finding);
      FixUnopposed(kit, log, w, c.finding, c.fix);
    }
    hide AllLawful, Accepted, FindingsOf, TriagesOf, Filed, Triaged, IsHex40, IsCommitId, IsFindingId, Unopposed;
    hide CommitExists, CommitLanded, TooEarly, Closed, Carries;
    RespondCarries(kit, log, w, c);
  }

  lemma RespondCarries(kit: Kit, log: Log, w: World, c: Command)
    requires log != [] && log[0].rec.body.Engagement? && c.Respond?
    ensures var eng := log[0].rec.body;
      DecideRespond(kit, eng, log, w, c).Write? ==> Carries(log, w, c, DecideRespond(kit, eng, log, w, c).body)
  {
    hide FindingsOf, TriagesOf, IsHex40, IsFindingId, CommitExists, CommitLanded, TooEarly;
  }

  lemma SignOffWritten(kit: Kit, log: Log, w: World, c: Command)
    requires AllLawful(log) && SealOf(log) == None && log != [] && log[0].rec.body.Engagement? && c.SignOff?
    ensures var eng := log[0].rec.body;
      && (DecideSignOff(kit, eng, log, w, c).Write? <==> MaySignOff(kit, log, eng.roster, w, c))
      && (DecideSignOff(kit, eng, log, w, c).Write? ==> Carries(log, w, c, DecideSignOff(kit, eng, log, w, c).body))
  {
    hide *;
    NoLawBroken(kit, log, w);
    SignOffDecides(kit, log, w, c);
    if DecideSignOff(kit, log[0].rec.body, log, w, c).Write? {
      SignOffBody(kit, log[0].rec.body, log, w, c);
      SignOffIsLawful(kit, log, w, c);
      SealCounts(log, w, c, DecideSignOff(kit, log[0].rec.body, log, w, c).body);
    }
  }

  lemma NoLawBroken(kit: Kit, log: Log, w: World)
    requires AllLawful(log) && log != []
    ensures (exists law :: law in ClosureRefusals(kit, log, w)) <==> exists law :: Breaks(kit, log, w, law)
    ensures w.anchors == None ==> exists law :: Breaks(kit, log, w, law)
  {
    hide AllLawful, ClosureRefusals;
    forall law
      ensures law in ClosureRefusals(kit, log, w) <==> Breaks(kit, log, w, law)
    {
      LawsExactly(kit, log, w, law);
    }
    assert w.anchors == None ==> Breaks(kit, log, w, AnchorsUnknown);
    hide Breaks;
  }

  lemma SignOffDecides(kit: Kit, log: Log, w: World, c: Command)
    requires log != [] && log[0].rec.body.Engagement? && c.SignOff?
    requires (exists law :: law in ClosureRefusals(kit, log, w)) <==> exists law :: Breaks(kit, log, w, law)
    requires w.anchors == None ==> exists law :: Breaks(kit, log, w, law)
    ensures DecideSignOff(kit, log[0].rec.body, log, w, c).Write? <==>
              MaySignOff(kit, log, log[0].rec.body.roster, w, c)
  {
    hide ClosureRefusals, Breaks, FindingsOf, TriagesOf, PassesOf, CountIndependent, GitSha;
  }

  lemma SealCounts(log: Log, w: World, c: Command, b: Body)
    requires log != [] && log[0].rec.body.Engagement? && c.SignOff? && Lawful(log, b) && b.Signoff?
    requires b.who == Actor(c.who, w) && b.tree == GitSha(w) && w.anchors == Some(b.anchors)
    ensures Carries(log, w, c, b)
  {
    CountIsNumber(IsPass, log);
    CountIsNumber(IsIndependentPass, log);
    CountIsNumber(IsFinding, log);
    CountIsNumber(IsTriage, log);
    CountIsNumber(IsFix, log);
    hide Count, Number, PassesOf, FindingsOf, TriagesOf, HasIndependent, LastFailed;
  }

  /** A command is written exactly when it may be, over the entries, the live tree and git's answers; what
      it writes carries the command's own fields. */
  lemma DecidedExactly(kit: Kit, log: Log, w: World, c: Command)
    requires Accepted(kit, log) && AllLawful(log)
    ensures Decide(kit, log, w, c).Write? <==> May(kit, log, w, c)
    ensures May(kit, log, w, c) && Decide(kit, log, w, c).Write? ==> Carries(log, w, c, Decide(kit, log, w, c).body)
  {
    CensusByEntries(log);
    if c.Engage? {
      EngageWritten(kit, log, w, c);
    } else if log != [] {
      LawfulStart(log);
      match c
      case RunPass(_, _) => PassWritten(log, w, c);
      case File(_, _, _, _, _, _) => FileWritten(log, w, c);
      case Respond(_, _, _, _, _) => RespondWritten(kit, log, w, c);
      case SignOff(_) =>
        if !Closed(log) {
          SignOffWritten(kit, log, w, c);
        }
    }
    hide AllLawful, Accepted, DecideEngage, DecidePass, DecideFile, DecideRespond, DecideSignOff, Carries, Closed;
    hide MayEngage, MayFile, MayRespond, MaySignOff, SealOf, FindingsOf, TriagesOf;
  }

  // ---------------------------------------------------------------------
  // What the reader asks of an entry's fields.
  // ---------------------------------------------------------------------

  lemma ShapeExactly(kit: Kit, b: Body)
    ensures WellShaped(kit, b) <==>
      b.who != "" &&
      match b
      case Engagement(_, firm, roster, window, basis, _) =>
        && firm != "" && basis != "" && kit.windowOk(window)
        && roster != [] && forall i :: 0 <= i < |roster| ==> roster[i] != "" && roster[i] !in roster[i + 1..]
      case Evidence(_, _, _, tree, _, _, outcome, verified, total, refusals) =>
        tree != "" && verified <= total && (refusals == [] <==> outcome == Passed)
      case Finding(id, _, against, severity, title, _, repro) =>
        IsReadableId(id) && IsSeverity(severity) && against != "" && title != "" && repro != ""
      case Triage(_, finding, verdict, reason, fix) =>
        && IsReadableId(finding) && IsVerdict(verdict) && reason != ""
        && (fix == None || (IsCommitId(fix.value) && verdict == "accepted"))
      case Signoff(_, tree, _, _, _, _, _, _) => tree != ""
  {
    hide IsReadableId, IsCommitId, IsHex40, IsFindingId, IsVerdict;
    match b
    case Engagement(_, _, roster, _, _, _) =>
      NamesApart(roster);
    case Finding(id, _, _, _, _, _, _) =>
      ReadableIds(id);
    case Triage(_, finding, verdict, _, fix) =>
      ReadableIds(finding);
      Verdicts(verdict);
      if fix.Some? {
        HexDigits(fix.value);
      }
    case _ =>
  }

  lemma NamesApart(roster: seq<string>)
    ensures "" !in roster && Distinct(roster) <==>
              forall i :: 0 <= i < |roster| ==> roster[i] != "" && roster[i] !in roster[i + 1..]
  {
    if forall i :: 0 <= i < |roster| ==> roster[i] != "" && roster[i] !in roster[i + 1..] {
      forall i, j | 0 <= i < j < |roster|
        ensures roster[i] != roster[j]
      {
        assert roster[j] == roster[i + 1..][j - i - 1];
      }
    }
  }

  // ---------------------------------------------------------------------
  // Why a command is refused.
  // ---------------------------------------------------------------------

  /** `AF-` and three digits. */
  ghost predicate IsReadableId(s: string) {
    |s| == 6 && s[0] == 'A' && s[1] == 'F' && s[2] == '-' && forall i :: 3 <= i < 6 ==> '0' <= s[i] <= '9'
  }

  lemma ReadableIds(s: string)
    ensures IsFindingId(s) <==> IsReadableId(s)
  {
    if |s| == 6 {
      assert s[..3] == "AF-" <==> s[0] == 'A' && s[1] == 'F' && s[2] == '-';
      assert forall i :: 3 <= i < 6 ==> s[i] == s[3..][i - 3];
    }
  }

  /** What each refusal says. */
  ghost predicate Causes(kit: Kit, log: Log, w: World, c: Command, why: Refusal) {
    var engaged := log != [] && log[0].rec.body.Engagement?;
    match why
    case Unreadable => !Accepted(kit, log)
    case NotEngaged => !c.Engage? && !engaged
    case AlreadyEngaged => c.Engage? && engaged
    case AlreadySealed => !c.Engage? && Closed(log)
    case EmptyRoster => c.Engage? && forall n :: n in c.auditors ==> n == ""
    case SignerOnRoster => c.Engage? && Speaker(c.who, w) in c.auditors
    case BadWindow => c.Engage? && !kit.windowOk(c.window)
    case NoAnchors =>
      ((c.Engage? || c.RunPass?) && (w.anchors == None || w.scope == None)) || (c.File? && w.scope == None)
    case NotAnAuditor => c.File? && engaged && Speaker(c.who, w) !in log[0].rec.body.roster
    case AuditorsMayNot => (c.Respond? || c.SignOff?) && engaged && Speaker(c.who, w) in log[0].rec.body.roster
    case UnknownRow => c.File? && w.scope.Some? && c.against !in w.scope.value
    case BadSeverity => c.File? && !IsSeverity(c.severity)
    case NoTitle => c.File? && c.title == ""
    case TwoReproducers => c.File? && c.reproPath.Some? && c.reproText.Some?
    case NoReproducer => c.File? && c.reproPath == None && c.reproText == None
    case NoSuchPath => c.File? && c.reproPath.Some? && c.reproPath.value !in w.files
    case BadFindingId => c.Respond? && !IsReadableId(c.finding)
    case NoSuchFinding => c.Respond? && !Filed(log, c.finding)
    case AlreadyTriaged => c.Respond? && Triaged(log, c.finding)
    case BadVerdict => c.Respond? && !IsVerdict(c.verdict)
    case NoReason => c.Respond? && c.reason == ""
    case NoFix => c.Respond? && c.verdict == "accepted" && c.fix == ""
    case BadFix => c.Respond? && c.verdict == "accepted" && !IsCommitId(c.fix)
    case NoSuchCommit => c.Respond? && c.verdict == "accepted" && SaidMissing(w, c.fix)
    case FixNotLanded =>
      c.Respond? && c.verdict == "accepted" && SaidPresent(w, c.fix) && SaidUnlanded(kit, w, c.fix)
    case FixTooEarly =>
      c.Respond? && c.verdict == "accepted" && SaidPresent(w, c.fix) && SaidBefore(kit, log, w, c.finding, c.fix)
    case FixNotAccepted => c.Respond? && c.verdict != "accepted" && c.fix != ""
    case LawsBroken(laws) =>
      c.SignOff? && engaged && laws != {} && forall law :: law in laws <==> Breaks(kit, log, w, law)
  }

  /** The order in which a command's checks come. */
  ghost function Turn(why: Refusal): nat {
    match why
    case Unreadable => 0
    case NotEngaged => 1
    case AlreadyEngaged => 1
    case AlreadySealed => 2
    case EmptyRoster => 3
    case SignerOnRoster => 4
    case BadWindow => 5
    case NotAnAuditor => 5
    case AuditorsMayNot => 5
    case NoAnchors => 6
    case UnknownRow => 7
    case BadSeverity => 8
    case NoTitle => 9
    case TwoReproducers => 10
    case NoReproducer => 11
    case NoSuchPath => 12
    case BadFindingId => 13
    case NoSuchFinding => 14
    case AlreadyTriaged => 15
    case BadVerdict => 16
    case NoReason => 17
    case NoFix => 18
    case FixNotAccepted => 18
    case BadFix => 19
    case NoSuchCommit => 20
    case FixNotLanded => 21
    case FixTooEarly => 22
    case LawsBroken(_) => 23
  }

  /** `why` holds, and nothing that is checked before it does. */
  ghost predicate ComesFirst(kit: Kit, log: Log, w: World, c: Command, why: Refusal) {
    Causes(kit, log, w, c, why) && forall other :: Causes(kit, log, w, c, other) ==> Turn(why) <= Turn(other)
  }

  /** The first check of an engagement that fails. */
  ghost function EngagementFault(kit: Kit, log: Log, w: World, c: Command): Refusal
    requires c.Engage?
  {
    if log != [] then AlreadyEngaged
    else if forall n :: n in c.auditors ==> n == "" then EmptyRoster
    else if Speaker(c.who, w) in c.auditors then SignerOnRoster
    else if !kit.windowOk(c.window) then BadWindow
    else NoAnchors
  }

  lemma EngageFault(kit: Kit, log: Log, w: World, c: Command)
    requires AllLawful(log) && c.Engage? && DecideEngage(kit, log, w, c).Refuse?
    ensures DecideEngage(kit, log, w, c).why == EngagementFault(kit, log, w, c)
    ensures EngagementFault(kit, log, w, c) == NoAnchors ==> w.anchors == None || w.scope == None
  {
    NonEmptyMembers(c.auditors);
    if log != [] {
      LawfulStart(log);
    }
    hide NonEmpty, AllLawful;
    if NonEmpty(c.auditors) != [] {
      assert NonEmpty(c.auditors)[0] in NonEmpty(c.auditors);
    }
  }

  lemma EngageFirst(kit: Kit, log: Log, w: World, c: Command, other: Refusal)
    requires Accepted(kit, log) && (log != [] ==> log[0].rec.body.Engagement?) && c.Engage?
    requires Causes(kit, log, w, c, other)
    ensures Turn(EngagementFault(kit, log, w, c)) <= Turn(other)
  {
    hide Accepted, Closed, Filed, Triaged, IsReadableId, IsCommitId, Breaks, Speaker, IsVerdict, IsSeverity;
  }

  lemma EngageCause(kit: Kit, log: Log, w: World, c: Command)
    requires (log != [] ==> log[0].rec.body.Engagement?) && c.Engage?
    requires EngagementFault(kit, log, w, c) == NoAnchors ==> w.anchors == None || w.scope == None
    ensures Causes(kit, log, w, c, EngagementFault(kit, log, w, c))
  {
    hide Accepted, Closed, Filed, Triaged, IsReadableId, IsCommitId, Breaks, Speaker, IsVerdict, IsSeverity;
  }

  lemma EngageRefused(kit: Kit, log: Log, w: World, c: Command)
    requires Accepted(kit, log) && AllLawful(log) && c.Engage? && DecideEngage(kit, log, w, c).Refuse?
    ensures ComesFirst(kit, log, w, c, DecideEngage(kit, log, w, c).why)
  {
    hide Accepted, AllLawful, DecideEngage, Causes, Turn, EngagementFault;
    EngageFault(kit, log, w, c);
    if log != [] {
      LawfulStart(log);
    }
    EngageCause(kit, log, w, c);
    forall other | Causes(kit, log, w, c, other)
      ensures Turn(DecideEngage(kit, log, w, c).why) <= Turn(other)
    {
      EngageFirst(kit, log, w, c, other);
    }
  }

  lemma PassRefused(kit: Kit, log: Log, w: World, c: Command)
    requires Accepted(kit, log) && log != [] && log[0].rec.body.Engagement? && !Closed(log) && c.RunPass?
    requires DecidePass(log[0].rec.body, w, c).Refuse?
    ensures ComesFirst(kit, log, w, c, DecidePass(log[0].rec.body, w, c).why)
  {
    hide Accepted, Closed, Filed, Triaged, IsReadableId, IsCommitId, Breaks;
  }

  lemma FileRefused(kit: Kit, log: Log, w: World, c: Command)
    requires Accepted(kit, log) && log != [] && log[0].rec.body.Engagement? && !Closed(log) && c.File?
    requires DecideFile(log[0].rec.body, log, w, c).Refuse?
    ensures ComesFirst(kit, log, w, c, DecideFile(log[0].rec.body, log, w, c).why)
  {
    hide Accepted, Closed, Filed, Triaged, IsReadableId, IsCommitId, Breaks, FormatId, MaxFindingNumber;
  }

  /** The first check of a response that fails. */
  ghost function ResponseFault(kit: Kit, log: Log, roster: seq<string>, w: World, c: Command): Refusal
    requires c.Respond?
  {
    if Speaker(c.who, w) in roster then AuditorsMayNot
    else if !IsReadableId(c.finding) then BadFindingId
    else if !Filed(log, c.finding) then NoSuchFinding
    else if Triaged(log, c.finding) then AlreadyTriaged
    else if !IsVerdict(c.verdict) then BadVerdict
    else if c.reason == "" then NoReason
    else if c.verdict != "accepted" then FixNotAccepted
    else if c.fix == "" then NoFix
    else if !IsCommitId(c.fix) then BadFix
    else if SaidMissing(w, c.fix) then NoSuchCommit
    else if SaidUnlanded(kit, w, c.fix) then FixNotLanded
    else FixTooEarly
  }

  lemma SpeakerIsActor(given: string, w: World)
    ensures Actor(given, w) == Speaker(given, w)
  {
  }

  lemma GitSaid(kit: Kit, w: World, sha: string)
    ensures CommitExists(w, sha) == Some(false) <==> SaidMissing(w, sha)
    ensures CommitExists(w, sha) == Some(true) <==> SaidPresent(w, sha)
    ensures CommitLanded(kit, w, sha) == Some(false) <==> SaidUnlanded(kit, w, sha)
  {
  }

  lemma RespondFault(kit: Kit, log: Log, w: World, c: Command)
    requires AllLawful(log) && log != [] && log[0].rec.body.Engagement?
    requires c.Respond? && DecideRespond(kit, log[0].rec.body, log, w, c).Refuse?
    ensures var why := ResponseFault(kit, log, log[0].rec.body.roster, w, c);
      && DecideRespond(kit, log[0].rec.body, log, w, c).why == why
      && (why == FixNotAccepted ==> c.fix != "")
      && (why == FixNotLanded || why == FixTooEarly ==> SaidPresent(w, c.fix))
      && (why == FixTooEarly ==> SaidBefore(kit, log, w, c.finding, c.fix))
  {
    hide DecideRespond, ResponseFault, AllLawful, SaidPresent, SaidBefore;
    if c.verdict == "accepted" {
      AcceptanceFault(kit, log, w, c);
    } else {
      OtherFault(kit, log, w, c);
    }
  }

  lemma OtherFault(kit: Kit, log: Log, w: World, c: Command)
    requires AllLawful(log) && log != [] && log[0].rec.body.Engagement?
    requires c.Respond? && DecideRespond(kit, log[0].rec.body, log, w, c).Refuse? && c.verdict != "accepted"
    ensures var why := ResponseFault(kit, log, log[0].rec.body.roster, w, c);
      && DecideRespond(kit, log[0].rec.body, log, w, c).why == why && (why == FixNotAccepted ==> c.fix != "")
      && why != FixNotLanded && why != FixTooEarly
  {
    CensusByEntries(log);
    ReadableIds(c.finding);
    Verdicts(c.verdict);
    SpeakerIsActor(c.who, w);
    hide IsVerdict, Actor, Speaker;
    hide AllLawful, Filed, Triaged, IsReadableId, IsCommitId, IsHex40, IsFindingId, FindingsOf, TriagesOf, TooEarly;
    hide SaidMissing, SaidPresent, SaidUnlanded, SaidBefore, CommitExists, CommitLanded, Closed;
  }

  /** The checks that come before those of the fix. */
  ghost predicate ReachesFix(log: Log, roster: seq<string>, w: World, c: Command)
    requires c.Respond?
  {
    && Speaker(c.who, w) !in roster && IsReadableId(c.finding) && Filed(log, c.finding) && !Triaged(log, c.finding)
    && c.reason != ""
  }

  lemma AcceptanceFault(kit: Kit, log: Log, w: World, c: Command)
    requires AllLawful(log) && log != [] && log[0].rec.body.Engagement?
    requires c.Respond? && DecideRespond(kit, log[0].rec.body, log, w, c).Refuse? && c.verdict == "accepted"
    ensures var why := ResponseFault(kit, log, log[0].rec.body.roster, w, c);
      && DecideRespond(kit, log[0].rec.body, log, w, c).why == why && why != FixNotAccepted
      && (why == FixNotLanded || why == FixTooEarly ==> SaidPresent(w, c.fix))
      && (why == FixTooEarly ==> SaidBefore(kit, log, w, c.finding, c.fix))
  {
    Verdicts(c.verdict);
    SpeakerIsActor(c.who, w);
    if ReachesFix(log, log[0].rec.body.roster, w, c) {
      hide DecideRespond, ResponseFault, AllLawful, SaidPresent, SaidBefore;
      FixFault(kit, log, w, c);
    } else {
      CensusByEntries(log);
      ReadableIds(c.finding);
      hide AllLawful, Filed, Triaged, IsReadableId, IsCommitId, IsHex40, IsFindingId, FindingsOf, TriagesOf, TooEarly;
      hide SaidMissing, SaidPresent, SaidUnlanded, SaidBefore, CommitExists, CommitLanded, Closed, IsVerdict, Actor;
      hide Speaker;
    }
  }

  lemma FixFault(kit: Kit, log: Log, w: World, c: Command)
    requires AllLawful(log) && log != [] && log[0].rec.body.Engagement?
    requires c.Respond? && DecideRespond(kit, log[0].rec.body, log, w, c).Refuse? && c.verdict == "accepted"
    requires ReachesFix(log, log[0].rec.body.roster, w, c)
    ensures var why := ResponseFault(kit, log, log[0].rec.body.roster, w, c);
      && DecideRespond(kit, log[0].rec.body, log, w, c).why == why && why != FixNotAccepted
      && (why == FixNotLanded || why == FixTooEarly ==> SaidPresent(w, c.fix))
      && (why == FixTooEarly ==> SaidBefore(kit, log, w, c.finding, c.fix))
  {
    CensusByEntries(log);
    HexDigits(c.fix);
    ReadableIds(c.finding);
    GitSaid(kit, w, c.fix);
    Verdicts(c.verdict);
    SpeakerIsActor(c.who, w);
    FiledOnce(kit, log, w, c.finding, c.fix);
    hide IsVerdict, Actor, Speaker;
    hide AllLawful, Filed, Triaged, IsReadableId, IsCommitId, IsHex40, IsFindingId, FindingsOf, TriagesOf, TooEarly;
    hide SaidMissing, SaidPresent, SaidUnlanded, SaidBefore, CommitExists, CommitLanded, Closed;
  }

  lemma FaultIsCause(kit: Kit, log: Log, w: World, c: Command)
    requires log != [] && log[0].rec.body.Engagement? && c.Respond?
    requires var why := ResponseFault(kit, log, log[0].rec.body.roster, w, c);
      && (why == FixNotAccepted ==> c.fix != "")
      && (why == FixNotLanded || why == FixTooEarly ==> SaidPresent(w, c.fix))
      && (why == FixTooEarly ==> SaidBefore(kit, log, w, c.finding, c.fix))
    ensures Causes(kit, log, w, c, ResponseFault(kit, log, log[0].rec.body.roster, w, c))
  {
    Verdicts(c.verdict);
    hide Accepted, Closed, Filed, Triaged, IsReadableId, IsCommitId, Breaks, SaidMissing, SaidPresent, SaidUnlanded;
    hide SaidBefore, Speaker, IsVerdict, IsSeverity;
  }

  lemma FaultIsFirst(kit: Kit, log: Log, w: World, c: Command, other: Refusal)
    requires Accepted(kit, log) && log != [] && log[0].rec.body.Engagement? && !Closed(log)
    requires c.Respond? && Causes(kit, log, w, c, other)
    ensures Turn(ResponseFault(kit, log, log[0].rec.body.roster, w, c)) <= Turn(other)
  {
    Verdicts(c.verdict);
    hide Accepted, Closed, Filed, Triaged, IsReadableId, IsCommitId, Breaks, SaidMissing, SaidPresent, SaidUnlanded;
    hide SaidBefore, Speaker, IsVerdict, IsSeverity;
  }

  lemma RespondRefused(kit: Kit, log: Log, w: World, c: Command)
    requires Accepted(kit, log) && AllLawful(log) && log != [] && log[0].rec.body.Engagement? && !Closed(log)
    requires c.Respond? && DecideRespond(kit, log[0].rec.body, log, w, c).Refuse?
    ensures ComesFirst(kit, log, w, c, DecideRespond(kit, log[0].rec.body, log, w, c).why)
  {
    hide Accepted, AllLawful, Closed, DecideRespond, Causes, Turn, ResponseFault;
    RespondFault(kit, log, w, c);
    FaultIsCause(kit, log, w, c);
    forall other | Causes(kit, log, w, c, other)
      ensures Turn(DecideRespond(kit, log[0].rec.body, log, w, c).why) <= Turn(other)
    {
      FaultIsFirst(kit, log, w, c, other);
    }
  }

  lemma SignOffFirst(kit: Kit, log: Log, w: World, c: Command, why: Refusal, other: Refusal)
    requires Accepted(kit, log) && log != [] && log[0].rec.body.Engagement? && !Closed(log) && c.SignOff?
    requires why == if Speaker(c.who, w) in log[0].rec.body.roster then AuditorsMayNot
                    else LawsBroken(ClosureRefusals(kit, log, w))
    requires Causes(kit, log, w, c, other)
    ensures Turn(why) <= Turn(other)
  {
    hide Accepted, Closed, ClosureRefusals, Breaks;
  }

  lemma SignOffCause(kit: Kit, log: Log, w: World, c: Command)
    requires AllLawful(log) && log != [] && log[0].rec.body.Engagement? && c.SignOff?
    requires DecideSignOff(kit, log[0].rec.body, log, w, c).Refuse?
    ensures var why := DecideSignOff(kit, log[0].rec.body, log, w, c).why;
      && Causes(kit, log, w, c, why)
      && why == if Speaker(c.who, w) in log[0].rec.body.roster then AuditorsMayNot
                else LawsBroken(ClosureRefusals(kit, log, w))
  {
    hide AllLawful, ClosureRefusals, Breaks, FindingsOf, TriagesOf, PassesOf, CountIndependent, GitSha;
    var laws := ClosureRefusals(kit, log, w);
    NoLawBroken(kit, log, w);
    SameLaws(kit, log, w, laws);
    if law :| law in laws {
      assert laws != {};
    }
  }

  lemma SignOffRefused(kit: Kit, log: Log, w: World, c: Command)
    requires Accepted(kit, log) && AllLawful(log) && log != [] && log[0].rec.body.Engagement? && !Closed(log)
    requires c.SignOff? && DecideSignOff(kit, log[0].rec.body, log, w, c).Refuse?
    ensures ComesFirst(kit, log, w, c, DecideSignOff(kit, log[0].rec.body, log, w, c).why)
  {
    hide Accepted, AllLawful, Closed, DecideSignOff, Causes, Turn, ClosureRefusals, Speaker;
    var why := DecideSignOff(kit, log[0].rec.body, log, w, c).why;
    SignOffCause(kit, log, w, c);
    forall other | Causes(kit, log, w, c, other)
      ensures Turn(why) <= Turn(other)
    {
      SignOffFirst(kit, log, w, c, why, other);
    }
  }

  lemma AtOnceRefused(kit: Kit, log: Log, w: World, c: Command, why: Refusal)
    requires why == if !Accepted(kit, log) then Unreadable else if log == [] then NotEngaged else AlreadySealed
    requires Accepted(kit, log) ==>
               !c.Engage? && (log == [] || (log[0].rec.body.Engagement? && Closed(log)))
    ensures ComesFirst(kit, log, w, c, why)
  {
    hide Accepted, Closed, Filed, Triaged, IsReadableId, IsCommitId, Breaks, SaidOlder, FiledAt, Speaker;
  }

  /** A refused command is refused for the first of its checks that fails. */
  lemma RefusedForCause(kit: Kit, log: Log, w: World, c: Command)
    requires AllLawful(log) && Attempt(kit, log, w, c).Refuse?
    ensures ComesFirst(kit, log, w, c, Attempt(kit, log, w, c).why)
  {
    var why := Attempt(kit, log, w, c).why;
    hide AllLawful, Accepted, DecideEngage, DecidePass, DecideFile, DecideRespond, DecideSignOff, Closed, SealOf;
    hide ComesFirst, FindingsOf, TriagesOf;
    CensusByEntries(log);
    if log != [] {
      LawfulStart(log);
    }
    if !Accepted(kit, log) {
      AtOnceRefused(kit, log, w, c, why);
    } else if c.Engage? {
      EngageRefused(kit, log, w, c);
    } else if log == [] || Closed(log) {
      AtOnceRefused(kit, log, w, c, why);
    } else {
      match c
      case RunPass(_, _) => PassRefused(kit, log, w, c);
      case File(_, _, _, _, _, _) => FileRefused(kit, log, w, c);
      case Respond(_, _, _, _, _) => RespondRefused(kit, log, w, c);
      case SignOff(_) => SignOffRefused(kit, log, w, c);
    }
  }

  /** What one command does to a ledger: nothing, unless the reader accepts it and the command may be
      written; then it appends one entry, chained, dated now, that carries the command's own fields. */
  lemma WrittenExactly(kit: Kit, log: Log, w: World, c: Command)
    requires AllLawful(log)
    ensures var log' := Step(kit, log, w, c);
      if !Accepted(kit, log) || !May(kit, log, w, c) then log' == log
      else
        && |log'| == |log| + 1 && log'[..|log|] == log && LinkedAt(kit, log', |log|)
        && log'[|log|].rec.prev == (if log == [] then 0 else log[|log| - 1].chain)
        && log'[|log|].rec.timestamp == w.now && Carries(log, w, c, log'[|log|].rec.body)
  {
    if Accepted(kit, log) {
      DecidedExactly(kit, log, w, c);
    }
    hide AllLawful, Accepted, May, Carries, Decide;
  }
}
