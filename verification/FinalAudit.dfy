/** The sealed audit's commands: what each refuses, what each writes, and the release gate. */
module FinalAudit {
  import opened Options
  import opened Ledger

  // ---------------------------------------------------------------------
  // The world a command runs in.
  // ---------------------------------------------------------------------

  const UNKNOWN: string := "unknown (not a git tree)"

  type Commit = s: string | s != "" && s != UNKNOWN witness "h"

  /** One question to git.  A question can go unanswered: a subprocess can time out, and an id
      that names no commit has no date. */
  datatype Ask = AskHead | AskExists(sha: string) | AskLanded(sha: string) | AskTime(sha: string)

  datatype World = World(
    ownRepo: bool,
    head: Commit,
    answers: Ask -> bool,
    exists_: string -> bool,
    anchors: Option<Anchors>,
    scope: Option<set<string>>,
    files: set<string>,
    actor: Name,
    now: nat
  )

  function GitSha(w: World): string {
    if w.ownRepo && w.answers(AskHead) then w.head else UNKNOWN
  }

  function CommitExists(w: World, sha: string): Option<bool> {
    if w.ownRepo && w.answers(AskExists(sha)) then Some(w.exists_(sha)) else None
  }

  function CommitLanded(kit: Kit, w: World, sha: string): Option<bool> {
    if w.ownRepo && w.answers(AskLanded(sha)) then Some(kit.isAncestor(sha, w.head)) else None
  }

  function CommitTime(kit: Kit, w: World, sha: string): Option<nat> {
    if w.ownRepo && w.answers(AskTime(sha)) then Some(kit.committed(sha)) else None
  }

  function Drift(pinned: Anchors, live: Anchors): set<AnchorName> {
    set n: AnchorName | n in {Scope, Freeze, Snapshot} && pinned.Get(n) != live.Get(n)
  }

  // ---------------------------------------------------------------------
  // The census, derived from the entries.
  // ---------------------------------------------------------------------

  function EngagementOf(log: Log): Option<Body> {
    if log != [] && log[0].rec.body.Engagement? then Some(log[0].rec.body) else None
  }

  /** Findings by id; a later entry with the same id wins. */
  function FindingsOf(log: Log): map<string, Record> {
    if log == [] then map[]
    else
      var m, r := FindingsOf(log[..|log| - 1]), log[|log| - 1].rec;
      if r.body.Finding? then m[r.body.id := r] else m
  }

  /** Triages by finding; the first one wins. */
  function TriagesOf(log: Log): map<string, Body> {
    if log == [] then map[]
    else
      var m, b := TriagesOf(log[..|log| - 1]), log[|log| - 1].rec.body;
      if b.Triage? && b.finding !in m then m[b.finding := b] else m
  }

  function PassesOf(log: Log): seq<Body> {
    if log == [] then []
    else PassesOf(log[..|log| - 1]) + if log[|log| - 1].rec.body.Evidence? then [log[|log| - 1].rec.body] else []
  }

  function SealOf(log: Log): Option<Body> {
    if log == [] then None
    else
      var s := SealOf(log[..|log| - 1]);
      if s.Some? then s else if log[|log| - 1].rec.body.Signoff? then Some(log[|log| - 1].rec.body) else None
  }

  function MaxFindingNumber(log: Log): nat {
    if log == [] then 0
    else
      var m, b := MaxFindingNumber(log[..|log| - 1]), log[|log| - 1].rec.body;
      if b.Finding? && IdNumber(b.id) > m then IdNumber(b.id) else m
  }

  datatype State = Vacant | Open | Underway | Reported | Responded | Remediated | Sealed

  function DeriveState(log: Log): State {
    var findings, triages := FindingsOf(log), TriagesOf(log);
    if log == [] then Vacant
    else if EngagementOf(log) == None then Open
    else if SealOf(log).Some? then Sealed
    else if PassesOf(log) == [] then Open
    else if findings == map[] then Underway
    else if |triages| < |findings| then Reported
    else if exists f :: f in triages && IsUnfixed(triages[f]) then Responded
    else Remediated
  }

  predicate IsAcceptance(t: Body) {
    t.Triage? && t.verdict == "accepted"
  }

  predicate IsUnfixed(t: Body) {
    IsAcceptance(t) && t.fix == None
  }

  // ---------------------------------------------------------------------
  // The closure laws.
  // ---------------------------------------------------------------------

  datatype Law =
    | NoContract | NoPass | Untriaged(id: string) | Unfixed | NoIndependentPass | LatestPassFailed
    | AnchorsUnknown | AnchorMoved(anchor: AnchorName) | NoHistory | NotLanded(id: string) | Predates(id: string)

  /** Everything that stands between this ledger and a signoff, as a set. */
  function ClosureRefusals(kit: Kit, log: Log, w: World): set<Law> {
    var eng, findings, triages, passes := EngagementOf(log), FindingsOf(log), TriagesOf(log), PassesOf(log);
    if eng == None then {NoContract}
    else
      PassRefusals(passes) + TriageRefusals(findings, triages) +
      AnchorRefusals(eng.value, w) + LandingRefusals(kit, findings, triages, w)
  }

  function PassRefusals(passes: seq<Body>): set<Law> {
    (if passes == [] then {NoPass} else {}) +
    (if !HasIndependent(passes) then {NoIndependentPass} else {}) +
    (if passes != [] && LastFailed(passes) then {LatestPassFailed} else {})
  }

  function TriageRefusals(findings: map<string, Record>, triages: map<string, Body>): set<Law> {
    (set f | f in findings && f !in triages :: Untriaged(f)) +
    (if exists f :: f in triages && IsUnfixed(triages[f]) then {Unfixed} else {})
  }

  predicate HasIndependent(passes: seq<Body>) {
    exists i :: 0 <= i < |passes| && passes[i].Evidence? && passes[i].independent
  }

  predicate LastFailed(passes: seq<Body>)
    requires passes != []
  {
    passes[|passes| - 1].Evidence? && passes[|passes| - 1].outcome != Passed
  }

  function AnchorRefusals(eng: Body, w: World): set<Law> {
    if w.anchors == None then {AnchorsUnknown}
    else if eng.Engagement? then set n | n in Drift(eng.anchors, w.anchors.value) :: AnchorMoved(n)
    else {}
  }

  function LandingRefusals(kit: Kit, findings: map<string, Record>, triages: map<string, Body>, w: World): set<Law> {
    if !w.ownRepo then {NoHistory}
    else
      (set f | f in triages && HasFix(triages[f]) && CommitLanded(kit, w, triages[f].fix.value) == Some(false)
         :: NotLanded(f)) +
      (set f | f in triages && HasFix(triages[f]) && f in findings
               && TooEarly(kit, w, triages[f].fix.value, findings[f].timestamp)
         :: Predates(f))
  }

  predicate HasFix(t: Body) {
    IsAcceptance(t) && t.fix.Some?
  }

  predicate TooEarly(kit: Kit, w: World, fix: string, filed: nat) {
    var when := CommitTime(kit, w, fix);
    when.Some? && when.value < filed
  }

  // ---------------------------------------------------------------------
  // The commands.
  // ---------------------------------------------------------------------

  /** A run of the guarantee checker. */
  datatype Check = Check(ok: bool, verified: nat, total: nat, refusals: seq<string>)

  /** An empty `who` falls back to the tree's own identity; an empty `fix` means none given. */
  datatype Command =
    | Engage(who: string, firm: string, auditors: seq<string>, window: string, basis: string)
    | RunPass(who: string, check: Check)
    | File(who: string, against: string, severity: string, title: string,
           reproPath: Option<string>, reproText: Option<string>)
    | Respond(who: string, finding: string, verdict: string, reason: string, fix: string)
    | SignOff(who: string)

  datatype Refusal =
    | Unreadable | NotEngaged | AlreadyEngaged | AlreadySealed
    | EmptyRoster | SignerOnRoster | BadWindow | NoAnchors
    | NotAnAuditor | AuditorsMayNot
    | UnknownRow | BadSeverity | NoTitle | TwoReproducers | NoReproducer | NoSuchPath
    | BadFindingId | NoSuchFinding | AlreadyTriaged | BadVerdict | NoReason
    | NoFix | BadFix | NoSuchCommit | FixNotLanded | FixTooEarly | FixNotAccepted
    | LawsBroken(laws: set<Law>)

  datatype Decision = Write(body: Body) | Refuse(why: Refusal)

  function Actor(who: string, w: World): string {
    if who != "" then who else w.actor
  }

  function NonEmpty(names: seq<string>): seq<string> {
    if names == [] then []
    else NonEmpty(names[..|names| - 1]) + if names[|names| - 1] != "" then [names[|names| - 1]] else []
  }

  function DecideEngage(kit: Kit, log: Log, w: World, c: Command): Decision
    requires c.Engage?
  {
    var who, roster := Actor(c.who, w), NonEmpty(c.auditors);
    if EngagementOf(log).Some? then Refuse(AlreadyEngaged)
    else if roster == [] then Refuse(EmptyRoster)
    else if who in roster then Refuse(SignerOnRoster)
    else if !kit.windowOk(c.window) then Refuse(BadWindow)
    else if w.anchors == None || w.scope == None then Refuse(NoAnchors)
    else Write(Engagement(who, c.firm, roster, c.window, c.basis, w.anchors.value))
  }

  function DecidePass(eng: Body, w: World, c: Command): Decision
    requires c.RunPass? && eng.Engagement?
  {
    var who, check := Actor(c.who, w), c.check;
    if w.anchors == None || w.scope == None then Refuse(NoAnchors)
    else
      Write(Evidence(who, if who in eng.roster then Auditor else Project, who in eng.roster, GitSha(w),
                     w.anchors.value, Drift(eng.anchors, w.anchors.value),
                     if check.ok then Passed else Failed, check.verified, check.total,
                     if check.ok then [] else check.refusals))
  }

  function DecideFile(eng: Body, log: Log, w: World, c: Command): Decision
    requires c.File? && eng.Engagement?
  {
    var who := Actor(c.who, w);
    if who !in eng.roster then Refuse(NotAnAuditor)
    else if w.scope == None then Refuse(NoAnchors)
    else if c.against !in w.scope.value then Refuse(UnknownRow)
    else if c.severity !in SEVERITIES then Refuse(BadSeverity)
    else if c.title == "" then Refuse(NoTitle)
    else if c.reproPath.Some? && c.reproText.Some? then Refuse(TwoReproducers)
    else if c.reproPath == None && c.reproText == None then Refuse(NoReproducer)
    else if c.reproPath.Some? && c.reproPath.value !in w.files then Refuse(NoSuchPath)
    else
      var (mode, repro) := if c.reproPath.Some? then (ByPath, c.reproPath.value) else (ByText, c.reproText.value);
      Write(Finding(FormatId(1 + MaxFindingNumber(log)), who, c.against, c.severity, c.title, mode, repro))
  }

  function DecideRespond(kit: Kit, eng: Body, log: Log, w: World, c: Command): Decision
    requires c.Respond? && eng.Engagement?
  {
    var who, findings := Actor(c.who, w), FindingsOf(log);
    if who in eng.roster then Refuse(AuditorsMayNot)
    else if !IsFindingId(c.finding) then Refuse(BadFindingId)
    else if c.finding !in findings then Refuse(NoSuchFinding)
    else if c.finding in TriagesOf(log) then Refuse(AlreadyTriaged)
    else if c.verdict !in VERDICTS then Refuse(BadVerdict)
    else if c.reason == "" then Refuse(NoReason)
    else if c.verdict != "accepted" then
      if c.fix != "" then Refuse(FixNotAccepted)
      else Write(Triage(who, c.finding, c.verdict, c.reason, None))
    else if c.fix == "" then Refuse(NoFix)
    else if !IsHex40(c.fix) then Refuse(BadFix)
    else
      var known := CommitExists(w, c.fix);
      if known == Some(false) then Refuse(NoSuchCommit)
      else if known.Some? && CommitLanded(kit, w, c.fix) == Some(false) then Refuse(FixNotLanded)
      else if known.Some? && TooEarly(kit, w, c.fix, findings[c.finding].timestamp) then Refuse(FixTooEarly)
      else Write(Triage(who, c.finding, c.verdict, c.reason, Some(c.fix)))
  }

  function DecideSignOff(kit: Kit, eng: Body, log: Log, w: World, c: Command): Decision
    requires c.SignOff? && eng.Engagement?
  {
    var who, laws := Actor(c.who, w), ClosureRefusals(kit, log, w);
    if who in eng.roster then Refuse(AuditorsMayNot)
    else if exists law :: law in laws then Refuse(LawsBroken(laws))
    else if w.anchors == None then Refuse(NoAnchors)
    else
      var triages := TriagesOf(log);
      Write(Signoff(who, GitSha(w), w.anchors.value, |PassesOf(log)|, CountIndependent(PassesOf(log)),
                    |FindingsOf(log)|, |triages|, |set f | f in triages && triages[f].Triage? && triages[f].fix.Some?|))
  }

  function CountIndependent(passes: seq<Body>): nat {
    if passes == [] then 0
    else
      CountIndependent(passes[..|passes| - 1]) +
      var p := passes[|passes| - 1];
      if p.Evidence? && p.independent then 1 else 0
  }

  /** What a command does with a ledger that reads back intact. */
  function Decide(kit: Kit, log: Log, w: World, c: Command): Decision {
    if c.Engage? then DecideEngage(kit, log, w, c)
    else
      var eng := EngagementOf(log);
      if eng == None then Refuse(NotEngaged)
      else if SealOf(log).Some? then Refuse(AlreadySealed)
      else match c
        case RunPass(_, _) => DecidePass(eng.value, w, c)
        case File(_, _, _, _, _, _) => DecideFile(eng.value, log, w, c)
        case Respond(_, _, _, _, _) => DecideRespond(kit, eng.value, log, w, c)
        case SignOff(_) => DecideSignOff(kit, eng.value, log, w, c)
  }

  // ---------------------------------------------------------------------
  // Runs.
  // ---------------------------------------------------------------------

  /** Every command reads the whole ledger first, and writes nothing onto a broken one. */
  ghost function Attempt(kit: Kit, log: Log, w: World, c: Command): Decision {
    if Accepted(kit, log) then Decide(kit, log, w, c) else Refuse(Unreadable)
  }

  ghost function Step(kit: Kit, log: Log, w: World, c: Command): Log {
    var d := Attempt(kit, log, w, c);
    if d.Write? then log + [Chained(kit, log, w.now, d.body)] else log
  }

  /** The ledger after a sequence of commands, each in its own world, from nothing. */
  ghost function Replay(kit: Kit, steps: seq<(World, Command)>): Log {
    if steps == [] then []
    else
      var (w, c) := steps[|steps| - 1];
      Step(kit, Replay(kit, steps[..|steps| - 1]), w, c)
  }

  // ---------------------------------------------------------------------
  // The gate.
  // ---------------------------------------------------------------------

  datatype GateAnswer =
    | Green
    | NoAudit | Broken | NotSealed(state: State, laws: set<Law>) | NoRepository
    | AroundTheAudit | NoLiveAnchors | Moved(anchors: set<AnchorName>) | FixGone

  function Gate(kit: Kit, log: Log, w: World): GateAnswer {
    var seal, triages := SealOf(log), TriagesOf(log);
    if log == [] then NoAudit
    else if seal == None then NotSealed(DeriveState(log), ClosureRefusals(kit, log, w))
    else if !w.ownRepo then NoRepository
    else if !seal.value.Signoff? || CommitLanded(kit, w, seal.value.tree) != Some(true) then AroundTheAudit
    else if w.anchors == None then NoLiveAnchors
    else if Drift(seal.value.anchors, w.anchors.value) != {} then Moved(Drift(seal.value.anchors, w.anchors.value))
    else if exists f :: f in triages && HasFix(triages[f]) && CommitLanded(kit, w, triages[f].fix.value) != Some(true)
      then FixGone
    else Green
  }

  // ---------------------------------------------------------------------
  // The ledger file and the tool that grows it.
  // ---------------------------------------------------------------------

  class LedgerFile {
    const kit: Kit
    var log: Log

    constructor (kit: Kit)
      ensures this.kit == kit && log == []
    {
      this.kit := kit;
      log := [];
    }

    /** `append_chained`: the chain is read again before the write. */
    method AppendChained(now: nat, body: Body) returns (ok: bool)
      modifies this
      ensures ok <==> Accepted(kit, old(log))
      ensures log == if ok then old(log) + [Chained(kit, old(log), now, body)] else old(log)
    {
      var r := ReadLedger(kit, log);
      if r.BrokenAt? {
        return false;
      }
      var rec := Record(|log| + 1, now, r.head, body);
      log := log + [Entry(rec, kit.hash(r.head, rec))];
      return true;
    }

    /** One command, from reading the ledger to writing its entry. */
    method Run(w: World, c: Command) returns (d: Decision)
      modifies this
      ensures d == Attempt(kit, old(log), w, c)
      ensures log == Step(kit, old(log), w, c)
    {
      var r := ReadLedger(kit, log);
      if r.BrokenAt? {
        return Refuse(Unreadable);
      }
      d := Decide(kit, log, w, c);
      if d.Write? {
        var ok := AppendChained(w.now, d.body);
      }
    }

    /** The release gate reads the ledger and writes nothing. */
    method RunGate(w: World) returns (g: GateAnswer)
      ensures g == if Accepted(kit, log) then Gate(kit, log, w) else Broken
    {
      var r := ReadLedger(kit, log);
      if r.BrokenAt? {
        return Broken;
      }
      g := Gate(kit, log, w);
    }
  }
}
