/** The sealed audit's ledger: entries, the hash chain, and the reader that verifies it. */
module Ledger {
  import opened Sequences
  import opened Options
  import opened Decimal

  /** A 64-hex digest, as the number it denotes. */
  type Digest = nat

  type Name = s: string | s != "" witness "halis"

  const GENESIS: Digest := 0

  datatype AnchorName = Scope | Freeze | Snapshot

  datatype Anchors = Anchors(scope: Digest, freeze: Digest, snapshot: Digest) {
    function Get(n: AnchorName): Digest {
      match n
      case Scope => scope
      case Freeze => freeze
      case Snapshot => snapshot
    }
  }

  datatype Role = Auditor | Project
  datatype Outcome = Passed | Failed
  datatype ReproMode = ByPath | ByText

  const SEVERITIES := {"critical", "high", "medium", "low", "info"}
  const VERDICTS := {"accepted", "disputed", "out-of-scope"}

  /** The fields of an entry besides the chain's own, one constructor a kind. */
  datatype Body =
    | Engagement(who: string, firm: string, roster: seq<string>, window: string, basis: string, anchors: Anchors)
    | Evidence(who: string, role: Role, independent: bool, tree: string, anchors: Anchors, drift: set<AnchorName>,
               outcome: Outcome, verified: nat, total: nat, refusals: seq<string>)
    | Finding(id: string, who: string, against: string, severity: string, title: string, mode: ReproMode, repro: string)
    | Triage(who: string, finding: string, verdict: string, reason: string, fix: Option<string>)
    | Signoff(who: string, tree: string, anchors: Anchors,
              passes: nat, independentPasses: nat, findings: nat, triages: nat, fixes: nat)

  /** What the hash covers: everything but the chain hash itself. */
  datatype Record = Record(seqNo: nat, timestamp: nat, prev: Digest, body: Body)

  datatype Entry = Entry(rec: Record, chain: Digest)

  type Log = seq<Entry>

  /** The fixed outside world: the hash, the window parser, and the commit history. */
  datatype Kit = Kit(
    hash: (Digest, Record) -> Digest,
    windowOk: string -> bool,
    isAncestor: (string, string) -> bool,
    committed: string -> nat
  )

  ghost predicate CollisionFree(kit: Kit) {
    forall p, r, p', r' :: kit.hash(p, r) == kit.hash(p', r') ==> p == p' && r == r'
  }

  // ---------------------------------------------------------------------
  // Shapes.
  // ---------------------------------------------------------------------

  const FINDING_WIDTH: nat := 3

  predicate IsFindingId(s: string) {
    |s| == 3 + FINDING_WIDTH && s[..3] == "AF-" && AllDigits(s[3..])
  }

  /** At least three digits: zero-padded, but never cut. */
  function Padded(n: nat): string {
    var d := Print(n);
    seq(if |d| < FINDING_WIDTH then FINDING_WIDTH - |d| else 0, _ => '0') + d
  }

  function FormatId(n: nat): string {
    "AF-" + Padded(n)
  }

  function IdNumber(s: string): nat {
    if |s| >= 3 && AllDigits(s[3..]) then Parse(s[3..]) else 0
  }

  lemma PaddedReadsBack(n: nat)
    ensures AllDigits(Padded(n)) && Parse(Padded(n)) == n
    ensures |Padded(n)| == FINDING_WIDTH <==> n <= 999
  {
    PrintParse(n);
    PrintLength(n);
    ParseWithZeros(if |Print(n)| < FINDING_WIDTH then FINDING_WIDTH - |Print(n)| else 0, Print(n));
  }

  /** The writer's numbering and the reader's grammar agree up to 999 and no further. */
  lemma FormatIdIsReadable(n: nat)
    ensures IsFindingId(FormatId(n)) <==> n <= 999
    ensures IdNumber(FormatId(n)) == n
  {
    hide Padded;
    PaddedReadsBack(n);
    assert FormatId(n)[3..] == Padded(n) && FormatId(n)[..3] == "AF-";
  }

  predicate IsHex40(s: string) {
    |s| == 40 && forall i :: 0 <= i < |s| ==> s[i] in "0123456789abcdef"
  }

  /** What the reader demands of one entry. */
  predicate WellShaped(kit: Kit, b: Body) {
    b.who != "" &&
    match b
    case Engagement(_, firm, roster, window, basis, _) =>
      firm != "" && roster != [] && "" !in roster && Distinct(roster) && kit.windowOk(window) && basis != ""
    case Evidence(_, _, _, tree, _, _, outcome, verified, total, refusals) =>
      tree != "" && verified <= total && (outcome == Failed <==> refusals != [])
    case Finding(id, _, against, severity, title, _, repro) =>
      IsFindingId(id) && against != "" && severity in SEVERITIES && title != "" && repro != ""
    case Triage(_, finding, verdict, reason, fix) =>
      IsFindingId(finding) && verdict in VERDICTS && reason != "" &&
      (fix.Some? ==> IsHex40(fix.value) && verdict == "accepted")
    case Signoff(_, tree, _, _, _, _, _, _) => tree != ""
  }

  // ---------------------------------------------------------------------
  // The chain.
  // ---------------------------------------------------------------------

  function Head(log: Log): Digest {
    if log == [] then GENESIS else log[|log| - 1].chain
  }

  /** Entry `i` sits at its place in the chain. */
  predicate LinkedAt(kit: Kit, log: Log, i: nat)
    requires i < |log|
  {
    var e := log[i];
    e.rec.seqNo == i + 1 && e.rec.prev == (if i == 0 then GENESIS else log[i - 1].chain) &&
      e.chain == kit.hash(e.rec.prev, e.rec)
  }

  ghost predicate Linked(kit: Kit, log: Log) {
    forall i :: 0 <= i < |log| ==> LinkedAt(kit, log, i)
  }

  ghost predicate Accepted(kit: Kit, log: Log) {
    Linked(kit, log) && forall i :: 0 <= i < |log| ==> WellShaped(kit, log[i].rec.body)
  }

  datatype Broken = BadShape | BadSeq | BadPrev | BadChain
  datatype Reading = Intact(head: Digest) | BrokenAt(line: nat, how: Broken)

  lemma PrefixLinked(kit: Kit, log: Log, k: nat)
    requires k <= |log|
    ensures Linked(kit, log) ==> Linked(kit, log[..k])
    ensures Accepted(kit, log) ==> Accepted(kit, log[..k])
    ensures k < |log| && Linked(kit, log[..k]) && LinkedAt(kit, log, k) ==> Linked(kit, log[..k + 1])
  {
    assert forall i :: 0 <= i < k ==> LinkedAt(kit, log, i) == LinkedAt(kit, log[..k], i);
    if k < |log| && Linked(kit, log[..k]) && LinkedAt(kit, log, k) {
      var longer := log[..k + 1];
      forall i | 0 <= i < |longer|
        ensures LinkedAt(kit, longer, i)
      {
        assert i < k ==> LinkedAt(kit, log[..k], i);
      }
    }
  }

  /** The reader: line by line, refusing at the first line that breaks the chain. */
  method ReadLedger(kit: Kit, log: Log) returns (r: Reading)
    ensures r.Intact? <==> Accepted(kit, log)
    ensures r.Intact? ==> r.head == Head(log)
    ensures r.BrokenAt? ==> 1 <= r.line <= |log|
                            && Accepted(kit, log[..r.line - 1]) && !Accepted(kit, log[..r.line])
    ensures r.BrokenAt? ==>
              var e, shaped := log[r.line - 1], WellShaped(kit, log[r.line - 1].rec.body);
              var sequenced, follows := e.rec.seqNo == r.line, e.rec.prev == Head(log[..r.line - 1]);
              && (r.how == BadShape <==> !shaped)
              && (r.how == BadSeq <==> shaped && !sequenced)
              && (r.how == BadPrev <==> shaped && sequenced && !follows)
              && (r.how == BadChain <==> shaped && sequenced && follows)
  {
    hide WellShaped;
    var prev := GENESIS;
    for i := 0 to |log|
      invariant prev == Head(log[..i])
      invariant Accepted(kit, log[..i])
    {
      var e := log[i];
      PrefixLinked(kit, log, i);
      PrefixLinked(kit, log, i + 1);
      assert log[..i + 1][i] == e && log[..i + 1][..i] == log[..i];
      if !WellShaped(kit, e.rec.body) {
        return BrokenAt(i + 1, BadShape);
      }
      if e.rec.seqNo != i + 1 {
        assert !LinkedAt(kit, log[..i + 1], i);
        return BrokenAt(i + 1, BadSeq);
      }
      if e.rec.prev != prev {
        assert !LinkedAt(kit, log[..i + 1], i);
        return BrokenAt(i + 1, BadPrev);
      }
      if e.chain != kit.hash(prev, e.rec) {
        assert !LinkedAt(kit, log[..i + 1], i);
        return BrokenAt(i + 1, BadChain);
      }
      assert LinkedAt(kit, log, i);
      prev := e.chain;
    }
    assert log[..|log|] == log;
    return Intact(prev);
  }

  // ---------------------------------------------------------------------
  // What the chain pins.
  // ---------------------------------------------------------------------

  /** Two non-empty accepted ledgers with the same head are the same ledger. */
  lemma {:induction false} SameHeadSameLedger(kit: Kit, a: Log, b: Log)
    requires CollisionFree(kit) && Linked(kit, a) && Linked(kit, b)
    requires a != [] && b != [] && Head(a) == Head(b)
    ensures a == b
    decreases |a|
  {
    var x, y := a[|a| - 1], b[|b| - 1];
    assert LinkedAt(kit, a, |a| - 1) && LinkedAt(kit, b, |b| - 1);
    assert kit.hash(x.rec.prev, x.rec) == kit.hash(y.rec.prev, y.rec);
    assert x == y && |a| == |b|;
    var a', b' := a[..|a| - 1], b[..|b| - 1];
    if a' != [] {
      PrefixLinked(kit, a, |a| - 1);
      PrefixLinked(kit, b, |b| - 1);
      SameHeadSameLedger(kit, a', b');
    }
    assert a == a' + [x] && b == b' + [y];
  }

  /** A ledger that carries an old head at its old place has the old ledger as a prefix. */
  lemma OldHeadFixesPrefix(kit: Kit, earlier: Log, log: Log)
    requires CollisionFree(kit) && Accepted(kit, earlier) && Accepted(kit, log)
    requires 0 < |earlier| <= |log| && log[|earlier| - 1].chain == Head(earlier)
    ensures log[..|earlier|] == earlier
  {
    PrefixLinked(kit, log, |earlier|);
    SameHeadSameLedger(kit, log[..|earlier|], earlier);
  }

  /** An edit anywhere, even one repaired so that the reader accepts it, changes
      every chain hash from there on. */
  lemma EditChangesEveryLaterHash(kit: Kit, a: Log, b: Log, i: nat, j: nat)
    requires CollisionFree(kit) && Accepted(kit, a) && Accepted(kit, b)
    requires i <= j < |a| && j < |b| && a[i] != b[i]
    ensures a[j].chain != b[j].chain
  {
    if a[j].chain == b[j].chain {
      PrefixLinked(kit, a, j + 1);
      PrefixLinked(kit, b, j + 1);
      assert a[..j + 1][i] == a[i] && b[..j + 1][i] == b[i];
      SameHeadSameLedger(kit, a[..j + 1], b[..j + 1]);
    }
  }

  function Chained(kit: Kit, log: Log, now: nat, body: Body): Entry {
    var rec := Record(|log| + 1, now, Head(log), body);
    Entry(rec, kit.hash(Head(log), rec))
  }

  /** Appending extends an accepted ledger by one entry, and the result is
      accepted exactly when the new body has the reader's shape. */
  lemma AppendAccepted(kit: Kit, log: Log, now: nat, body: Body)
    requires Linked(kit, log)
    ensures var log' := log + [Chained(kit, log, now, body)];
            Linked(kit, log') && log'[..|log|] == log &&
            (Accepted(kit, log) ==> (Accepted(kit, log') <==> WellShaped(kit, body)))
  {
    hide WellShaped;
    var log' := log + [Chained(kit, log, now, body)];
    assert log'[..|log|] == log;
    forall i | 0 <= i < |log|
      ensures LinkedAt(kit, log', i)
    {
      assert LinkedAt(kit, log, i);
    }
    assert log'[|log|].rec.body == body;
    if Accepted(kit, log) && WellShaped(kit, body) {
      forall i | 0 <= i < |log'|
        ensures WellShaped(kit, log'[i].rec.body)
      {
        if i < |log| { assert log'[i] == log[i]; }
      }
    }
  }
}
