/** The audit's census, closure laws, lifecycle word and gate, read off the entries and git's answers. */
module AuditCensus {
  import opened Options
  import opened Ledger
  import opened FinalAudit
  import opened AuditLaws
  import opened AuditStates

  // ---------------------------------------------------------------------
  // The entries of a ledger.
  // ---------------------------------------------------------------------

  /** Entry `j` files finding `f`. */
  ghost predicate FiledAt(log: Log, j: nat, f: string) {
    j < |log| && log[j].rec.body.Finding? && log[j].rec.body.id == f
  }

  /** Entry `t` answers finding `f`. */
  ghost predicate TriagedAt(log: Log, t: nat, f: string) {
    t < |log| && log[t].rec.body.Triage? && log[t].rec.body.finding == f
  }

  ghost predicate Filed(log: Log, f: string) {
    exists j: nat :: FiledAt(log, j, f)
  }

  ghost predicate Triaged(log: Log, f: string) {
    exists t: nat :: TriagedAt(log, t, f)
  }

  ghost predicate PassAtEntry(log: Log, j: nat) {
    j < |log| && log[j].rec.body.Evidence?
  }

  ghost predicate HasPass(log: Log) {
    exists j: nat :: PassAtEntry(log, j)
  }

  ghost predicate HasIndependentPass(log: Log) {
    exists j: nat :: PassAtEntry(log, j) && log[j].rec.body.independent
  }

  /** The latest pass did not come out well. */
  ghost predicate LatestFailed(log: Log) {
    exists j: nat :: PassAtEntry(log, j) && log[j].rec.body.outcome == Failed
                     && forall k: nat :: k > j ==> !PassAtEntry(log, k)
  }

  ghost predicate SignoffAt(log: Log, j: nat) {
    j < |log| && log[j].rec.body.Signoff?
  }

  ghost predicate Closed(log: Log) {
    exists j: nat :: SignoffAt(log, j)
  }

  lemma {:induction false} CensusByEntries(log: Log)
    ensures forall f :: f in FindingsOf(log) <==> Filed(log, f)
    ensures forall f :: f in TriagesOf(log) <==> Triaged(log, f)
    ensures SealOf(log).Some? <==> Closed(log)
  {
    forall f
      ensures f in FindingsOf(log) <==> Filed(log, f)
      ensures f in TriagesOf(log) <==> Triaged(log, f)
    {
      if f in FindingsOf(log) {
        var j := FindingAt(log, f);
        assert FiledAt(log, j, f);
      }
      if Filed(log, f) {
        var j: nat :| FiledAt(log, j, f);
        FindingIsListed(log, j);
      }
      if f in TriagesOf(log) {
        var t := TriageAt(log, f);
        assert TriagedAt(log, t, f);
      }
      if Triaged(log, f) {
        var t: nat :| TriagedAt(log, t, f);
        TriageIsListed(log, t);
      }
    }
    if SealOf(log).Some? {
      SealIsEntry(log);
    }
    if j: nat :| SignoffAt(log, j) {
      SealAt(log, j);
    }
  }

  lemma {:induction false} SealIsEntry(log: Log)
    requires SealOf(log).Some?
    ensures exists j: nat :: SignoffAt(log, j) && log[j].rec.body == SealOf(log).value
  {
    var n := |log|;
    if SealOf(log[..n - 1]).Some? {
      SealIsEntry(log[..n - 1]);
      var j: nat :| SignoffAt(log[..n - 1], j) && log[..n - 1][j].rec.body == SealOf(log[..n - 1]).value;
      assert SignoffAt(log, j);
    } else {
      assert SignoffAt(log, n - 1);
    }
  }

  /** The signoff of a lawful ledger is its last entry. */
  lemma SealIsLast(log: Log)
    requires AllLawful(log) && Closed(log)
    ensures log != [] && SealOf(log) == Some(log[|log| - 1].rec.body) && log[|log| - 1].rec.body.Signoff?
  {
    var j: nat :| SignoffAt(log, j);
    SealAt(log, j);
    SealIsEntry(log);
    var i: nat :| SignoffAt(log, i) && log[i].rec.body == SealOf(log).value;
    NothingAfterSeal(log, i);
  }

  lemma {:induction false} PassesByEntries(log: Log)
    ensures PassesOf(log) != [] <==> HasPass(log)
    ensures HasIndependent(PassesOf(log)) <==> HasIndependentPass(log)
    ensures PassesOf(log) != [] && LastFailed(PassesOf(log)) <==> LatestFailed(log)
  {
    if log == [] {
    } else {
      var n := |log|;
      var front, b := log[..n - 1], log[n - 1].rec.body;
      PassesByEntries(front);
      EntriesSnoc(front, log[n - 1]);
      assert log == front + [log[n - 1]];
      IndependentSnoc(PassesOf(front), b);
      hide HasPass, HasIndependentPass, LatestFailed, HasIndependent;
      if b.Evidence? {
        assert PassesOf(log) == PassesOf(front) + [b];
      } else {
        assert PassesOf(log) == PassesOf(front);
      }
    }
  }

  lemma IndependentSnoc(passes: seq<Body>, b: Body)
    ensures HasIndependent(passes + [b]) <==> HasIndependent(passes) || (b.Evidence? && b.independent)
  {
    var all := passes + [b];
    assert all[|passes|] == b;
    if i :| 0 <= i < |passes| && passes[i].Evidence? && passes[i].independent {
      assert all[i] == passes[i];
    }
  }

  lemma EntriesSnoc(log: Log, e: Entry)
    ensures HasPass(log + [e]) <==> HasPass(log) || e.rec.body.Evidence?
    ensures HasIndependentPass(log + [e]) <==>
              HasIndependentPass(log) || (e.rec.body.Evidence? && e.rec.body.independent)
    ensures LatestFailed(log + [e]) <==>
              if e.rec.body.Evidence? then e.rec.body.outcome == Failed else LatestFailed(log)
  {
    var all := log + [e];
    forall j: nat
      ensures PassAtEntry(all, j) <==> PassAtEntry(log, j) || (j == |log| && e.rec.body.Evidence?)
    {
    }
    if e.rec.body.Evidence? {
      assert PassAtEntry(all, |log|);
    }
    if LatestFailed(log) && !e.rec.body.Evidence? {
      var j: nat :| PassAtEntry(log, j) && log[j].rec.body.outcome == Failed
                    && forall k: nat :: k > j ==> !PassAtEntry(log, k);
      assert PassAtEntry(all, j) && all[j] == log[j];
    }
    if LatestFailed(all) && !e.rec.body.Evidence? {
      var j: nat :| PassAtEntry(all, j) && all[j].rec.body.outcome == Failed
                    && forall k: nat :: k > j ==> !PassAtEntry(all, k);
      assert PassAtEntry(log, j) && all[j] == log[j];
    }
    if HasIndependentPass(log) {
      var j: nat :| PassAtEntry(log, j) && log[j].rec.body.independent;
      assert PassAtEntry(all, j) && all[j] == log[j];
    }
    if HasPass(log) {
      var j: nat :| PassAtEntry(log, j);
      assert PassAtEntry(all, j);
    }
  }

  /** In a lawful ledger a finding and a triage are the only ones of their id. */
  lemma FindingEntry(log: Log, j: nat, f: string)
    requires AllLawful(log) && FiledAt(log, j, f)
    ensures f in FindingsOf(log) && FindingsOf(log)[f] == log[j].rec
  {
    FindingIsListed(log, j);
    var i := FindingAt(log, f);
    if i < j { FindingIdsUnique(log, i, j); }
    if j < i { FindingIdsUnique(log, j, i); }
  }

  lemma TriageEntry(log: Log, t: nat, f: string)
    requires AllLawful(log) && TriagedAt(log, t, f)
    ensures f in TriagesOf(log) && TriagesOf(log)[f] == log[t].rec.body
  {
    TriageIsListed(log, t);
    var u := TriageAt(log, f);
    if u < t { TriagesDiffer(log, u, t); }
    if t < u { TriagesDiffer(log, t, u); }
  }

  // ---------------------------------------------------------------------
  // Git's answers.
  // ---------------------------------------------------------------------

  /** Git answered that no such commit exists. */
  ghost predicate SaidMissing(w: World, sha: string) {
    w.ownRepo && w.answers(AskExists(sha)) && !w.exists_(sha)
  }

  /** Git answered that the commit exists. */
  ghost predicate SaidPresent(w: World, sha: string) {
    w.ownRepo && w.answers(AskExists(sha)) && w.exists_(sha)
  }

  /** Git answered that the commit is an ancestor of HEAD. */
  ghost predicate SaidLanded(kit: Kit, w: World, sha: string) {
    w.ownRepo && w.answers(AskLanded(sha)) && kit.isAncestor(sha, w.head)
  }

  /** Git answered that it is not. */
  ghost predicate SaidUnlanded(kit: Kit, w: World, sha: string) {
    w.ownRepo && w.answers(AskLanded(sha)) && !kit.isAncestor(sha, w.head)
  }

  /** Git gave a date for the commit, before the time given. */
  ghost predicate SaidOlder(kit: Kit, w: World, sha: string, time: nat) {
    w.ownRepo && w.answers(AskTime(sha)) && kit.committed(sha) < time
  }

  // ---------------------------------------------------------------------
  // The closure laws.
  // ---------------------------------------------------------------------

  /** What each closure refusal says, of the entries, the live anchors and git's answers. */
  ghost predicate Breaks(kit: Kit, log: Log, w: World, law: Law)
    requires log != []
  {
    match law
    case NoContract => !log[0].rec.body.Engagement?
    case NoPass => !HasPass(log)
    case Untriaged(id) => Filed(log, id) && !Triaged(log, id)
    case Unfixed => exists t :: 0 <= t < |log| && log[t].rec.body.Triage? && log[t].rec.body.verdict == "accepted"
                                && log[t].rec.body.fix == None
    case NoIndependentPass => !HasIndependentPass(log)
    case LatestPassFailed => LatestFailed(log)
    case AnchorsUnknown => w.anchors == None
    case AnchorMoved(n) =>
      && log[0].rec.body.Engagement? && w.anchors.Some?
      && log[0].rec.body.anchors.Get(n) != w.anchors.value.Get(n)
    case NoHistory => !w.ownRepo
    case NotLanded(id) =>
      exists t: nat :: TriagedAt(log, t, id) && log[t].rec.body.fix.Some?
                       && SaidUnlanded(kit, w, log[t].rec.body.fix.value)
    case Predates(id) =>
      exists t: nat, j: nat :: TriagedAt(log, t, id) && FiledAt(log, j, id) && log[t].rec.body.fix.Some?
                               && SaidOlder(kit, w, log[t].rec.body.fix.value, log[j].rec.timestamp)
  }

  lemma LawfulStart(log: Log)
    requires AllLawful(log) && log != []
    ensures log[0].rec.body.Engagement? && EngagementOf(log) == Some(log[0].rec.body)
  {
    EngagedLog(log);
    assert Lawful(log[..0], log[0].rec.body);
  }

  lemma RefusalsIn(kit: Kit, log: Log, w: World, law: Law)
    requires AllLawful(log) && log != []
    ensures var eng, findings, triages, passes := log[0].rec.body, FindingsOf(log), TriagesOf(log), PassesOf(log);
      law in ClosureRefusals(kit, log, w) <==>
        || law in PassRefusals(passes) || law in TriageRefusals(findings, triages)
        || law in AnchorRefusals(eng, w) || law in LandingRefusals(kit, findings, triages, w)
  {
    LawfulStart(log);
    hide PassRefusals, TriageRefusals, AnchorRefusals, LandingRefusals, FindingsOf, TriagesOf, PassesOf, AllLawful;
  }

  lemma PassLaw(log: Log, law: Law)
    ensures law in PassRefusals(PassesOf(log)) <==>
      match law
      case NoPass => !HasPass(log)
      case NoIndependentPass => !HasIndependentPass(log)
      case LatestPassFailed => LatestFailed(log)
      case _ => false
  {
    PassesByEntries(log);
    hide HasPass, HasIndependentPass, LatestFailed, HasIndependent, LastFailed, PassesOf;
  }

  lemma TriageLaw(log: Log, law: Law)
    requires AllLawful(log)
    ensures law in TriageRefusals(FindingsOf(log), TriagesOf(log)) <==>
              law.Untriaged? && Filed(log, law.id) && !Triaged(log, law.id)
  {
    CensusByEntries(log);
    NoUnfixed(log);
    hide Filed, Triaged, FindingsOf, TriagesOf, IsUnfixed, AllLawful;
  }

  lemma AnchorLaw(eng: Body, w: World, law: Law)
    requires eng.Engagement?
    ensures law in AnchorRefusals(eng, w) <==>
      match law
      case AnchorsUnknown => w.anchors == None
      case AnchorMoved(n) => w.anchors.Some? && eng.anchors.Get(n) != w.anchors.value.Get(n)
      case _ => false
  {
    if w.anchors.Some? {
      forall n: AnchorName
        ensures n in Drift(eng.anchors, w.anchors.value) <==> eng.anchors.Get(n) != w.anchors.value.Get(n)
      {
      }
    }
  }

  lemma FixOf(log: Log, f: string) returns (t: nat)
    requires AllLawful(log) && f in TriagesOf(log)
    ensures TriagedAt(log, t, f) && log[t].rec.body == TriagesOf(log)[f]
    ensures HasFix(TriagesOf(log)[f]) <==> log[t].rec.body.fix.Some?
  {
    TriagesAreOnePerFinding(log);
    t := TriageAt(log, f);
  }

  lemma LandedLaw(kit: Kit, log: Log, w: World, id: string)
    requires AllLawful(log) && w.ownRepo
    ensures NotLanded(id) in LandingRefusals(kit, FindingsOf(log), TriagesOf(log), w) <==>
      exists t: nat :: TriagedAt(log, t, id) && log[t].rec.body.fix.Some?
                       && SaidUnlanded(kit, w, log[t].rec.body.fix.value)
  {
    var triages := TriagesOf(log);
    assert NotLanded(id) in LandingRefusals(kit, FindingsOf(log), triages, w) <==>
      id in triages && HasFix(triages[id]) && CommitLanded(kit, w, triages[id].fix.value) == Some(false) by {
      hide TriagesOf, FindingsOf, HasFix, TooEarly, CommitLanded;
    }
    if id in triages {
      var t := FixOf(log, id);
      hide TriagesOf, HasFix;
    }
    forall t: nat | TriagedAt(log, t, id)
      ensures id in triages && triages[id] == log[t].rec.body
    {
      TriageEntry(log, t, id);
    }
  }

  lemma DateLaw(kit: Kit, log: Log, w: World, id: string)
    requires AllLawful(log) && w.ownRepo
    ensures Predates(id) in LandingRefusals(kit, FindingsOf(log), TriagesOf(log), w) <==>
      exists t: nat, j: nat :: TriagedAt(log, t, id) && FiledAt(log, j, id) && log[t].rec.body.fix.Some?
                               && SaidOlder(kit, w, log[t].rec.body.fix.value, log[j].rec.timestamp)
  {
    var findings, triages := FindingsOf(log), TriagesOf(log);
    hide LandingRefusals, FindingsOf, TriagesOf, HasFix, TooEarly, AllLawful, SaidOlder;
    PredatesIn(kit, findings, triages, w, id);
    if Predates(id) in LandingRefusals(kit, findings, triages, w) {
      var t := FixOf(log, id);
      var j := FindingAt(log, id);
      IsFiledAt(log, j, id);
      TooEarlySaid(kit, w, triages[id].fix.value, findings[id].timestamp);
    }
    if t: nat, j: nat :| TriagedAt(log, t, id) && FiledAt(log, j, id) && log[t].rec.body.fix.Some?
                         && SaidOlder(kit, w, log[t].rec.body.fix.value, log[j].rec.timestamp) {
      TriageEntry(log, t, id);
      FindingEntry(log, j, id);
      var u := FixOf(log, id);
      TooEarlySaid(kit, w, triages[id].fix.value, findings[id].timestamp);
    }
  }

  lemma IsFiledAt(log: Log, j: nat, f: string)
    requires j < |log| && log[j].rec.body.Finding? && log[j].rec.body.id == f
    ensures FiledAt(log, j, f)
  {
  }

  lemma TooEarlySaid(kit: Kit, w: World, sha: string, filed: nat)
    ensures TooEarly(kit, w, sha, filed) <==> SaidOlder(kit, w, sha, filed)
  {
  }

  lemma PredatesIn(kit: Kit, findings: map<string, Record>, triages: map<string, Body>, w: World, id: string)
    requires w.ownRepo
    ensures Predates(id) in LandingRefusals(kit, findings, triages, w) <==>
      id in triages && HasFix(triages[id]) && id in findings
      && TooEarly(kit, w, triages[id].fix.value, findings[id].timestamp)
    ensures id in triages && HasFix(triages[id]) ==> triages[id].Triage? && triages[id].fix.Some?
  {
    hide TooEarly, CommitLanded;
  }

  /** The closure refusals of a lawful ledger are exactly the laws that its entries, the live anchors and
      git's answers break. */
  lemma LawsExactly(kit: Kit, log: Log, w: World, law: Law)
    requires AllLawful(log) && log != []
    ensures law in ClosureRefusals(kit, log, w) <==> Breaks(kit, log, w, law)
  {
    LawfulStart(log);
    RefusalsIn(kit, log, w, law);
    PassLaw(log, law);
    TriageLaw(log, law);
    AnchorLaw(log[0].rec.body, w, law);
    LandingKinds(kit, FindingsOf(log), TriagesOf(log), w, law);
    if law == Unfixed {
      NoneUnfixed(log);
    }
    if w.ownRepo && law.NotLanded? {
      LandedLaw(kit, log, w, law.id);
    }
    if w.ownRepo && law.Predates? {
      DateLaw(kit, log, w, law.id);
    }
    hide AllLawful, FindingsOf, TriagesOf, PassesOf, PassRefusals, TriageRefusals, AnchorRefusals, LandingRefusals;
    hide HasPass, HasIndependentPass, LatestFailed, Filed, Triaged, FiledAt, TriagedAt, ClosureRefusals, EngagementOf;
  }

  lemma LandingKinds(kit: Kit, findings: map<string, Record>, triages: map<string, Body>, w: World, law: Law)
    ensures law in LandingRefusals(kit, findings, triages, w) ==>
              law.NoHistory? || (w.ownRepo && (law.NotLanded? || law.Predates?))
    ensures NoHistory in LandingRefusals(kit, findings, triages, w) <==> !w.ownRepo
  {
  }

  lemma NoneUnfixed(log: Log)
    requires AllLawful(log)
    ensures !exists t :: 0 <= t < |log| && log[t].rec.body.Triage? && log[t].rec.body.verdict == "accepted"
                         && log[t].rec.body.fix == None
  {
    forall t | 0 <= t < |log| && log[t].rec.body.Triage?
      ensures log[t].rec.body.fix.Some? <==> log[t].rec.body.verdict == "accepted"
    {
      assert Lawful(log[..t], log[t].rec.body);
    }
  }

  // ---------------------------------------------------------------------
  // The lifecycle word and the gate.
  // ---------------------------------------------------------------------

  /** What the lifecycle word says of the entries. */
  ghost predicate StateIs(log: Log, s: State) {
    match s
    case Vacant => log == []
    case Open => log != [] && !Closed(log) && !HasPass(log)
    case Underway => !Closed(log) && HasPass(log) && forall f :: !Filed(log, f)
    case Reported => !Closed(log) && HasPass(log) && exists f :: Filed(log, f) && !Triaged(log, f)
    case Responded => false
    case Remediated =>
      !Closed(log) && HasPass(log) && (exists f :: Filed(log, f)) && forall f :: Filed(log, f) ==> Triaged(log, f)
    case Sealed => Closed(log)
  }

  lemma StateExactly(log: Log, s: State)
    requires AllLawful(log)
    ensures DeriveState(log) == s <==> StateIs(log, s)
  {
    hide *;
    StateIsWord(log);
    CensusByEntries(log);
    PassesByEntries(log);
    NoEntries(log);
    StateFromWord(log, FindingsOf(log).Keys, TriagesOf(log).Keys, s);
  }

  lemma StateFromWord(log: Log, filed: set<string>, answered: set<string>, s: State)
    requires forall f :: f in filed <==> Filed(log, f)
    requires forall f :: f in answered <==> Triaged(log, f)
    requires answered <= filed && (Closed(log) || HasPass(log) ==> log != [])
    ensures Word(log == [], Closed(log), HasPass(log), filed, answered) == s <==> StateIs(log, s)
  {
    hide Filed, Triaged, Closed, HasPass;
    KeysCompare(filed, answered);
  }

  lemma NoEntries(log: Log)
    ensures Closed(log) || HasPass(log) ==> log != []
  {
  }

  lemma KeysCompare(filed: set<string>, answered: set<string>)
    requires answered <= filed
    ensures filed == {} <==> forall f :: f !in filed
    ensures answered != filed <==> exists f :: f in filed && f !in answered
  {
  }

  /** What each answer of the gate says. */
  ghost predicate GateSays(kit: Kit, log: Log, w: World, g: GateAnswer) {
    match g
    case NoAudit => log == []
    case Broken => false
    case NotSealed(state, laws) =>
      && log != [] && !Closed(log) && StateIs(log, state)
      && forall law :: law in laws <==> Breaks(kit, log, w, law)
    case NoRepository => Closed(log) && !w.ownRepo
    case AroundTheAudit => Closed(log) && w.ownRepo && !SealedTreeIn(kit, log, w)
    case NoLiveAnchors => Closed(log) && w.ownRepo && SealedTreeIn(kit, log, w) && w.anchors == None
    case Moved(names) =>
      && Closed(log) && w.ownRepo && SealedTreeIn(kit, log, w) && w.anchors.Some? && names != {}
      && forall n: AnchorName :: n in names <==> SealMoved(log, w.anchors.value, n)
    case FixGone => StandsOnTheSeal(kit, log, w) && exists t: nat :: FixMissing(kit, log, w, t)
    case Green => StandsOnTheSeal(kit, log, w) && forall t: nat :: !FixMissing(kit, log, w, t)
  }

  /** Git says that the tree of the signoff, the last entry, is in HEAD. */
  ghost predicate SealedTreeIn(kit: Kit, log: Log, w: World) {
    log != [] && log[|log| - 1].rec.body.Signoff? && SaidLanded(kit, w, log[|log| - 1].rec.body.tree)
  }

  ghost predicate SealMoved(log: Log, live: Anchors, n: AnchorName) {
    log != [] && log[|log| - 1].rec.body.Signoff? && log[|log| - 1].rec.body.anchors.Get(n) != live.Get(n)
  }

  ghost predicate StandsOnTheSeal(kit: Kit, log: Log, w: World) {
    && Closed(log) && SealedTreeIn(kit, log, w) && w.anchors.Some?
    && forall n: AnchorName :: !SealMoved(log, w.anchors.value, n)
  }

  /** Entry `t` records a fix that git does not say has landed. */
  ghost predicate FixMissing(kit: Kit, log: Log, w: World, t: nat) {
    && t < |log| && log[t].rec.body.Triage? && log[t].rec.body.fix.Some?
    && !SaidLanded(kit, w, log[t].rec.body.fix.value)
  }

  ghost predicate SomeFixGone(kit: Kit, triages: map<string, Body>, w: World) {
    exists f :: f in triages && HasFix(triages[f]) && CommitLanded(kit, w, triages[f].fix.value) != Some(true)
  }

  lemma FixesMissing(kit: Kit, log: Log, w: World)
    requires AllLawful(log)
    ensures SomeFixGone(kit, TriagesOf(log), w) <==> exists t: nat :: FixMissing(kit, log, w, t)
  {
    var triages := TriagesOf(log);
    TriagesAreOnePerFinding(log);
    if f :| f in triages && HasFix(triages[f]) && CommitLanded(kit, w, triages[f].fix.value) != Some(true) {
      var t := FixOf(log, f);
      assert FixMissing(kit, log, w, t);
    }
    if t: nat :| FixMissing(kit, log, w, t) {
      var f := log[t].rec.body.finding;
      TriageEntry(log, t, f);
      var u := FixOf(log, f);
      assert f in triages && HasFix(triages[f]) && CommitLanded(kit, w, triages[f].fix.value) != Some(true);
    }
  }

  lemma SameLaws(kit: Kit, log: Log, w: World, laws: set<Law>)
    requires AllLawful(log) && log != []
    ensures laws == ClosureRefusals(kit, log, w) <==> forall law :: law in laws <==> Breaks(kit, log, w, law)
  {
    hide *;
    forall law
      ensures law in ClosureRefusals(kit, log, w) <==> Breaks(kit, log, w, law)
    {
      LawsExactly(kit, log, w, law);
    }
  }

  lemma OpenGate(kit: Kit, log: Log, w: World, g: GateAnswer)
    requires AllLawful(log) && log != [] && !Closed(log)
    ensures NotSealed(DeriveState(log), ClosureRefusals(kit, log, w)) == g <==> GateSays(kit, log, w, g)
  {
    hide DeriveState, ClosureRefusals, Breaks, Closed, StateIs, AllLawful, SealedTreeIn, SealMoved, FixMissing;
    if g.NotSealed? {
      StateExactly(log, g.state);
      SameLaws(kit, log, w, g.laws);
    }
  }

  lemma GateOnSeal(kit: Kit, log: Log, w: World)
    requires AllLawful(log) && Closed(log)
    ensures log != [] && log[|log| - 1].rec.body.Signoff?
    ensures Gate(kit, log, w) ==
      if !w.ownRepo then NoRepository
      else if !SealedTreeIn(kit, log, w) then AroundTheAudit
      else if w.anchors == None then NoLiveAnchors
      else
        var moved := Drift(log[|log| - 1].rec.body.anchors, w.anchors.value);
        if moved != {} then Moved(moved) else if exists t: nat :: FixMissing(kit, log, w, t) then FixGone else Green
  {
    hide *;
    SealIsLast(log);
    FixesMissing(kit, log, w);
    GateUnfolds(kit, log, w);
    TreeIn(kit, log, w);
  }

  lemma TreeIn(kit: Kit, log: Log, w: World)
    requires log != [] && log[|log| - 1].rec.body.Signoff?
    ensures CommitLanded(kit, w, log[|log| - 1].rec.body.tree) == Some(true) <==> SealedTreeIn(kit, log, w)
  {
  }

  lemma GateUnfolds(kit: Kit, log: Log, w: World)
    requires log != [] && SealOf(log).Some? && SealOf(log).value.Signoff?
    ensures Gate(kit, log, w) ==
      if !w.ownRepo then NoRepository
      else if CommitLanded(kit, w, SealOf(log).value.tree) != Some(true) then AroundTheAudit
      else if w.anchors == None then NoLiveAnchors
      else
        var moved := Drift(SealOf(log).value.anchors, w.anchors.value);
        if moved != {} then Moved(moved) else if SomeFixGone(kit, TriagesOf(log), w) then FixGone else Green
  {
    hide SealOf, TriagesOf, HasFix, Drift, DeriveState, ClosureRefusals, CommitLanded;
  }

  lemma SealedGate(kit: Kit, log: Log, w: World, g: GateAnswer)
    requires AllLawful(log) && Closed(log)
    ensures Gate(kit, log, w) == g <==> GateSays(kit, log, w, g)
  {
    hide Gate, AllLawful, FixMissing, Drift, Closed, StateIs, Breaks, SealedTreeIn, SealMoved;
    GateOnSeal(kit, log, w);
    TreeInOwnRepo(kit, log, w);
    if w.anchors.Some? {
      SealDrift(log, w.anchors.value, if g.Moved? then g.anchors else {});
    }
  }

  lemma SealDrift(log: Log, live: Anchors, names: set<AnchorName>)
    requires log != [] && log[|log| - 1].rec.body.Signoff?
    ensures var moved := Drift(log[|log| - 1].rec.body.anchors, live);
      && (moved == {} <==> forall n: AnchorName :: !SealMoved(log, live, n))
      && (moved == names <==> forall n: AnchorName :: n in names <==> SealMoved(log, live, n))
  {
    var moved := Drift(log[|log| - 1].rec.body.anchors, live);
    DriftIs(log[|log| - 1].rec.body.anchors, live);
    hide Drift;
    forall n: AnchorName
      ensures n in moved <==> SealMoved(log, live, n)
    {
    }
    hide SealMoved;
  }

  lemma TreeInOwnRepo(kit: Kit, log: Log, w: World)
    ensures SealedTreeIn(kit, log, w) ==> w.ownRepo
  {
  }

  lemma DriftIs(pinned: Anchors, live: Anchors)
    ensures forall n: AnchorName :: n in Drift(pinned, live) <==> pinned.Get(n) != live.Get(n)
  {
  }

  /** The gate gives each answer exactly when it is so. */
  lemma GateExactly(kit: Kit, log: Log, w: World, g: GateAnswer)
    requires AllLawful(log)
    ensures Gate(kit, log, w) == g <==> GateSays(kit, log, w, g)
  {
    CensusByEntries(log);
    if Closed(log) {
      SealedGate(kit, log, w, g);
    } else if log != [] {
      OpenGate(kit, log, w, g);
      hide ClosureRefusals, DeriveState, GateSays, SealOf, TriagesOf, FindingsOf, AllLawful, Closed;
    } else {
      hide ClosureRefusals, DeriveState, TriagesOf, FindingsOf, AllLawful, SealOf, Closed;
    }
  }
}
