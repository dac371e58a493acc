# Halis toolchain: verified models

Halis (HLS) ships a set of self-hosted tools. This project models the ones that carry an
algorithm or a protocol of their own and proves what they promise:

- **The sealed audit ledger** (`tools/hls-finalaudit.py`). An append-only, hash-chained log
  grown by five commands (engage, evidence, file, triage, signoff) and read by a release gate.
  `Ledger` holds entries, the chain and its reader; `FinalAudit` the commands and the gate as
  atomic steps, and the class `LedgerFile` that runs them; `AuditCommands` and `AuditCensus` say, of the entries and
  git's answers alone, when a command is written, what, why it is refused otherwise, and what the gate answers;
  `AuditLaws`, `AuditSeals` and `AuditStates` prove what every reachable ledger, seal and green gate satisfies, and `AuditRuns` builds the runs in which
  a law fails. The hash is an arbitrary function of the previous digest
  and the record, git history an arbitrary ancestor relation that may or may not answer.
- **The autofixer** (`tools/hllint.py`). `DeadCode` gives statement lists a fuelled semantics with
  returns, breaks, continues, loops, and expressions that may call the program's functions as they like, and proves
  that deleting what rule L007 flags preserves it. `FixPlan` turns hints into edits and skips, `Splice` resolves
  overlapping edits and applies them right to left; `BlockClose` is the brace scanner beside the language's own
  lexing, and `AttributeLines` says exactly when the two agree and what a deletion then removes; `FixLoop` is the
  verify-or-roll-back loop over an arbitrary linter and arbitrary strategies, and `SkipReport` what a whole run reports.
- **The debug engine** (`tools/hls-dap.py`). `DebugEngine` interleaves interpreter hooks, wake-ups of
  one condition variable and adapter commands, and `Debugger` is the class that performs them;
  `Stepping` relates the stops of one thread to its call tree.
- **Audits of imports and packages** (`tools/hls-audit.py`). `ImportGraph` and `ImportChains` are the
  breadth-first walk and the shortest chains; `PackageWalk` and `PackageTree` the depth-first walk that
  builds a tree of mutable nodes and refuses cycles.
- **The model checker** (`tools/hlmodel.py`). `ModelCheck` is the exhaustive table and the search.
- **The benchmark runner** (`tools/hls-bench.py`). `BenchProtocol` parses the line protocol,
  `BenchRun` runs a driver and checks its records, `BenchStats` and `OutlierCounts` are the order
  statistics over exact reals.
- **The fuzzer's minimiser** (`tools/hls-fuzz.py`). `Minimize` shrinks a diverging program.

`Options`, `Sequences`, `SourceText`, `TextLines`, `Decimal` and `Sorting` are shared: absent values,
duplicates and reversal, byte and character strings, splitting and joining, decimal numerals, and a stable sort.

Each imperative operation is a method whose contract equates its result, or its object's new state,
with a specification function or predicate; the promises are then proved of those.

Results that a reader of the tools' own documentation would not expect:

- A signoff treats a git question that goes unanswered as no objection (`commit_landed` or
  `commit_timestamp` returning None, the latter for any id that names no commit). So it can seal a
  fix that is not an ancestor of the sealed tree (`AuditRuns.SilentGitSealsAnUnlandedFix`) or one that
  is older than its finding. The landing law holds of a seal, in every history its signoff could not tell
  from the real one, exactly when git told that signoff the head and each recorded fix's landing and date
  (`AuditSeals.SealGuaranteesLaw`, and over whole runs `AuditSeals.SealedFixesLanded`).
- The gate enforces half of the landing law. It is closed to a fix that has not landed, but it asks no dates:
  `AuditRuns.SilentDateIsGreen` is a run whose gate is green on a fix older than its finding.
  `AuditSeals.GreenGuarantees` says what green does guarantee, and `AuditSeals.GateIsGreenExactlyWhen` when
  the gate's last re-check of the fixes follows from the seal.
- A writer can append an entry that no reader accepts, and then no command ever writes again
  (`AuditRuns.CarelessWriteIsForever`): an empty firm already in the first entry
  (`AuditRuns.EmptyFirmIsWritten`), and the thousandth finding (`AuditRuns.ThousandthFindingIsWritten`).
  `AuditLaws.WriterReaderAgree` gives the exact condition: firm, basis, reproducer and the row a finding is
  against not empty, distinct roster names, a failed pass with a refusal, a count of verified items within the
  total, and fewer than 999 findings already filed.
- Several insertions planned at one offset come out in the reverse of the planned order
  (`Splice.InsertionsAtOneOffset`).
- One round of deleting what L007 flags may leave code that L007 flags: deleting statements can make an
  enclosing list end in a return. One round more than `if`s are nested always suffices, and no fewer do in
  general (`DeadCode.RoundsReachClean`, `DeadCode.RoundsBoundIsTight`); the fixer's eight rounds therefore
  clear a program whose `if`s are nested at most seven deep, if each round is kept.
- The brace scanner takes every `#` in code for a comment, where the language reads `#[` and `#![` as code. It
  misses the braces in the rest of an attribute's line (`AttributeLines.ScannerMisses`), so it may take an inner
  brace for the block's (`AttributeLines.ScannerTakesTheInnerBrace`), and two such lines may cancel: the deletion
  planned then takes live code after the block (`AttributeLines.TwoLinesTakeLiveCode`). It is right exactly if the
  block's own brace is none of those, they cancel before it, and on the way they never add more to the depth than
  the blocks then open (`AttributeLines.ScannerIsRightExactly`); one attribute line is harmless exactly if it opens
  as many blocks as it closes and does not hold the block's brace (`AttributeLines.OneAttributeLine`).
- "Every skip is reported with a reason, never silent": of the hints left in the result, with two exceptions only
  (`SkipReport.HintsLeftAreReported`). After eight kept rounds what is left is neither tried nor reported
  (`SkipReport.CapIsSilent`; a program with `if`s nested eight deep, `DeadCode.Nest(8, 0)`, needs a ninth round for
  L007). And a round whose edits change nothing ends the run without a word: the deletion planned for a dead
  statement such as `x = 3`, which has no head token to look for, starts at the first byte of its line; if that is
  the `}` of the `if` before it, at the line's start, the deletion is empty (`SkipReport.EmptyDeletion`,
  `SkipReport.EmptyDeletionIsSilent`).
- A minimised program whose body has become empty keeps one empty line in its place (`Minimize.BuildLines`).
- The sample size of an adaptive benchmark plan keeps to `max_iters` even below one, since neither bound is
  checked; such a run never gives a result (`BenchRun.SizedWithinBounds`, `BenchRun.MeasureBench`).

## Model

| member | source | states |
|---|---|---|
| Ledger.FormatIdIsReadable | tools/hls-finalaudit.py:565-570 | the id the writer prints for number n is readable as a finding id exactly when n is at most 999, and then reads back as n |
| Ledger.ReadLedger | tools/hls-finalaudit.py:742-791 | the reader accepts exactly the logs whose every entry has the next sequence number, the previous hash, its own hash and a well-formed body; otherwise it names the first entry that does not, and the first of these that fails there |
| Ledger.SameHeadSameLedger | tools/hls-finalaudit.py:106-111 | under a collision-free hash, two non-empty accepted ledgers of equal head are equal entry by entry |
| Ledger.OldHeadFixesPrefix | tools/hls-finalaudit.py:106-111 | an accepted ledger that carries an earlier ledger's head at that sequence number has the earlier ledger as its prefix |
| Ledger.EditChangesEveryLaterHash | tools/hls-finalaudit.py:742-791 | where two accepted ledgers differ at an entry, all their chain hashes from there on differ, so an edit, a swap or a repair cannot keep a later hash |
| Ledger.AppendAccepted | tools/hls-finalaudit.py:793-811 | appending a chained entry keeps the chain whole, and keeps the ledger accepted exactly when the body is well-formed |
| FinalAudit.LedgerFile.AppendChained | tools/hls-finalaudit.py:793-811 | a ledger that does not read is left alone; any other grows by exactly the chained entry |
| FinalAudit.LedgerFile.Run | tools/hls-finalaudit.py:1416-1773 | one command reads the ledger, decides, and leaves the ledger that the atomic step of the protocol gives |
| FinalAudit.LedgerFile.RunGate | tools/hls-finalaudit.py:1791-1848 | the gate gives its answer for an accepted ledger, refuses a broken one, and changes nothing |
| AuditCommands.WrittenExactly | tools/hls-finalaudit.py:1416-1773 | a command is written exactly when the ledger reads and the roster, the entries, the live tree and git's answers allow it; then one chained entry is added, dated now, that carries the command's own fields |
| AuditCommands.RefusedForCause | tools/hls-finalaudit.py:1416-1773 | a refused command is refused for a cause that holds, the first in the order of its checks |
| AuditCommands.ShapeExactly | tools/hls-finalaudit.py:608-740 | what the reader asks of the fields of each kind of entry, in literal terms |
| AuditCensus.LawsExactly | tools/hls-finalaudit.py:883-965 | each closure refusal is given exactly when the entries, the live anchors or git's answers break that law |
| AuditCensus.StateExactly | tools/hls-finalaudit.py:859-880 | the lifecycle word is the one that the entries say: signoff, passes, findings filed and answered |
| AuditCensus.GateExactly | tools/hls-finalaudit.py:1791-1848 | the gate gives each of its answers exactly when it is so |
| AuditLaws.NumbersAreCounts | tools/hls-finalaudit.py:1614-1617 | in a lawful ledger the highest finding number in use is the number of findings |
| AuditLaws.FindingIdsAreSequential | tools/hls-finalaudit.py:827-834 | the finding ids of a lawful ledger are exactly those of 1 to k, one entry each |
| AuditLaws.TriagesAreOnePerFinding | tools/hls-finalaudit.py:836-844 | triages are one for each triaged finding, all triaged ids are findings, and the fixes counted are those of accepted triages |
| AuditLaws.ClosureLaws | tools/hls-finalaudit.py:883-965 | no closure refusal remains exactly when a pass exists, one is independent, the latest is ok, every finding is triaged, accepted ones have fixes, anchors are the engagement's, the tree is its own repository, and no fix is known to be unlanded or older than its finding |
| AuditLaws.StepKeepsLaw | tools/hls-finalaudit.py:1416-1773 | every command in every world keeps each entry lawful with respect to the entries before it |
| AuditLaws.ReachableIsSound | tools/hls-finalaudit.py:1416-1773 | after any sequence of commands the chain is whole, every entry is lawful, and only the last entry can be one the reader refuses |
| AuditLaws.WriterReaderAgree | tools/hls-finalaudit.py:608-740 | a written entry leaves a readable ledger exactly when the caller met the stated conditions |
| AuditLaws.SealIsFinal | tools/hls-finalaudit.py:1394-1402 | in every reachable ledger a signoff is unique and last, its signer is off the roster, and the entries before it hold an independent pass, a latest pass that is ok, a triage after every finding, the engagement's anchors, and exactly the recorded counts |
| AuditSeals.SignOffChecks | tools/hls-finalaudit.py:939-955 | a written signoff means that each fix whose landing git answered is an ancestor of HEAD, and each whose date it answered is not older than its finding |
| AuditSeals.SameStep | tools/hls-finalaudit.py:331-366 | every command does the same in any two histories that give the same answers |
| AuditSeals.LandingGuaranteed | tools/hls-finalaudit.py:939-950 | in every history the signoff's answers allow, a recorded fix is an ancestor of the sealed tree exactly when git told the head and whether the fix landed (HEAD itself needs no telling) |
| AuditSeals.DateGuaranteed | tools/hls-finalaudit.py:951-964 | in every such history the fix is not older than its finding exactly when git told its date, or the finding was filed at time zero |
| AuditSeals.SealGuaranteesLaw | tools/hls-finalaudit.py:1738-1773 | the landing law holds of the written seal in every history that the signoff could not tell from the real one exactly when git told it the head and every recorded fix's landing and date |
| AuditSeals.SealedFixesLanded | tools/hls-finalaudit.py:939-955 | the same over any sealed run, with no condition on any step but the one that sealed |
| AuditSeals.GateIsGreenExactlyWhen | tools/hls-finalaudit.py:1791-1848 | on a sealed run the gate is green exactly on an own repository cut from the sealed tree, with the seal's anchors and git answering about that tree and the fixes, in every history and world, exactly when git told the sealing step whether the fixes had landed; only then is the last re-check of the fixes implied |
| AuditSeals.GreenGuarantees | tools/hls-finalaudit.py:70-80 | a green gate on a ledger that a signoff sealed (as in every sealed run) means that every recorded fix is an ancestor of HEAD whatever git told the signoff, and that a fix is not older than its finding, in every history giving the same answers and the same green gate, exactly when git told the signoff its date |
| AuditSeals.GreenPersists | tools/hls-finalaudit.py:1791-1848 | on a descendant HEAD with unmoved anchors a green gate stays green exactly when git answers about the sealed tree and the fixes |
| AuditSeals.GreenAfterSeal | tools/hls-finalaudit.py:1738-1773 | in the world of the signoff itself the gate is green exactly when git told the head and answers about it and the fixes |
| AuditStates.RolesAreSeparate | tools/hls-finalaudit.py:1405-1413 | the engagement is first and unique; its signer, every triager and every sealer are off the roster, every filer is on it, and a pass is independent exactly when its runner is on it |
| AuditStates.TriageFollowsItsFinding | tools/hls-finalaudit.py:1642-1731 | every triage comes after the one finding of the id it names, is its only triage, and carries a fix exactly when it accepts |
| AuditStates.RespondedNeverOccurs | tools/hls-finalaudit.py:859-880 | no reachable ledger is in the state "responded" |
| AuditStates.SealedAbsorbs | tools/hls-finalaudit.py:1394-1402 | no command changes a sealed ledger |
| AuditStates.RankDropsOnlyOnFile | tools/hls-finalaudit.py:859-880 | a step lowers the rank of the derived state only when it files a finding |
| AuditRuns.SilentGitSealsAnUnlandedFix | tools/hls-finalaudit.py:331-344 | a run of five commands whose seal vouches for a fix that is not an ancestor of the sealed tree |
| AuditRuns.SilentDateIsGreen | tools/hls-finalaudit.py:347-366 | a run of five commands, git answering all but dates, whose gate is green on a fix older than its finding |
| AuditRuns.CarelessWriteIsForever | tools/hls-finalaudit.py:793-811 | after one careless command that is written, the ledger is never accepted and never changed again, by any commands in any worlds |
| AuditRuns.EmptyFirmIsWritten | tools/hls-finalaudit.py:2008 | an engagement with an empty firm is written to the empty ledger, which is then unreadable for good |
| AuditRuns.ThousandthFindingIsWritten | tools/hls-finalaudit.py:1614-1617 | a reachable accepted ledger with 999 findings, on which one more is written and makes it unreadable for good |
| DeadCode.CheckDeadAfterReturn | tools/hllint.py:766-805 | it reports exactly the statements that follow a terminating one in their own list, each once, with the deletion hint on the first of each run |
| DeadCode.EndsInReturnNeverFallsThrough | tools/hllint.py:1042-1056 | a list that ends in a return never completes normally, under any conditions, calls and fuel |
| DeadCode.PruneBlockSameRun | tools/hllint.py:1663-1684 | a statement list and its pruned form have the same outcome, state and log of executed statements |
| DeadCode.PruneKeepsExactlyTheLive | tools/hllint.py:766-805 | pruning keeps exactly the statements that are not flagged and lie in no flagged statement, each at its own place |
| DeadCode.FlaggedNeverRuns | tools/hllint.py:766-805 | no run of any function of the program, whatever its expressions call, executes a flagged statement or anything below it |
| DeadCode.RoundShrinks | tools/hllint.py:1663-1684 | a round that has something to flag strictly reduces the number of statements; one that has nothing leaves the program as it is |
| DeadCode.RoundsPreserveMeaning | tools/hllint.py:1663-1684 | any number of rounds preserves every run of every function |
| DeadCode.RoundsReachClean | tools/hllint.py:1253-1312 | more rounds than `if`s are nested leave nothing to flag |
| DeadCode.RoundsBoundIsTight | tools/hllint.py:1253-1312 | for every depth there is a program of that nesting depth that is clean after n rounds exactly when n exceeds it |
| Splice.ResolveOverlaps | tools/hllint.py:1814-1830 | every planned edit is kept or skipped; each skipped one overlaps a kept one, and gives way to a kept one that begins no later, reaches past its start, and is no shorter if they begin together |
| Splice.OverlapsInBytes | tools/hllint.py:1824-1826 | two edits overlap exactly if they share a byte, or one is an insertion strictly inside the other |
| Splice.DroppedGivesWay | tools/hllint.py:1814-1830 | of any plan inside the file, each dropped edit has such a kept one, so of two that begin together the longer is kept |
| Splice.FirstOfOneSpan | tools/hllint.py:1814-1830 | of several edits of one span at most one is kept, the first planned |
| Splice.DropIsJustified | tools/hllint.py:1814-1830 | kept and dropped edits together are the planned ones, and every dropped edit clashes with a kept one |
| Splice.ResolvedIsOrdered | tools/hllint.py:1814-1830 | the kept edits are pairwise disjoint, and from left to right they form one sequence of spans, an insertion before the span that starts at its offset |
| Splice.Apply | tools/hllint.py:1832-1842 | splicing right to left equals the one simultaneous substitution of the edits read left to right |
| Splice.PiecesLand | tools/hllint.py:1832-1842 | every gap between edits and every replacement text stands in the result, at the offset shifted by the growth of the edits before it |
| Splice.SubstituteLength | tools/hllint.py:1832-1842 | the length changes by exactly the sum of the edits' growths |
| Splice.UnchangedExactly | tools/hllint.py:1832-1842 | splicing leaves the file as it is exactly if the edits' growths cancel and every gap and replacement text stands already where it would come to stand |
| Splice.InsertionsAtOneOffset | tools/hllint.py:1832-1842 | insertions at one offset stand in the reverse of the order in which they were planned |
| Splice.ResolveAndApply | tools/hllint.py:1814-1842 | for every plan within the source, resolving and splicing give the substitution of the kept edits |
| BlockClose.FindBlockClose | tools/hllint.py:1118-1147 | it returns the first closing brace with no unmatched opening brace since the start, outside strings and comments as the scanner reads them (every `#` in code a comment), and -1 exactly when there is none |
| BlockClose.ReadingStartsAnywhere | tools/hlinterp/lexer.py:103-141 | a reading that starts at any byte the file's lexing reads as code gives every later byte the same mode, and the same depth up to the one at the start |
| BlockClose.BalancedRunCloses | tools/hlinterp/lexer.py:103-282 | in the language, attributes included, and in the scanner's reading: after any balanced run of that reading, a following closing brace is the first that closes the block, whatever comes after |
| AttributeLines.ScannerMisses | tools/hllint.py:1137-1140 | the scanner reads the rest of an attribute's line as a comment and misses exactly its braces; every other byte it reads as the language does |
| AttributeLines.NoAttributesNoDifference | tools/hllint.py:1137-1140 | up to the first attribute the two readings agree in mode and depth |
| AttributeLines.ScannerIsRightExactly | tools/hllint.py:1118-1147 | the scanner returns the brace that closes the block in the language exactly if that brace stands in no attribute's line rest, the braces in those rests cancel before it, and they never add more than the depth |
| AttributeLines.NeutralLinesCancel | tools/hllint.py:1118-1147 | if every attribute line before the block's brace opens as many blocks as it closes, the condition holds |
| AttributeLines.OneAttributeLine | tools/hllint.py:1118-1147 | with attributes on one line only, the scanner is right exactly if that line's rest does not hold the brace and is neutral |
| AttributeLines.DeletionKeepsTheRest | tools/hllint.py:1663-1684 | for any dead run of the language: deleting up to the scanner's brace leaves everything before the run, the brace and everything after it, and nothing else, exactly under that condition |
| AttributeLines.ScannerTakesTheInnerBrace | tools/hllint.py:1118-1147 | a file on which the scanner closes the block one brace too early |
| AttributeLines.TwoLinesTakeLiveCode | tools/hllint.py:1663-1684 | a family of files on which the deletion of a dead run also removes the live code after its block and the head of the next block |
| FixPlan.PlanHints | tools/hllint.py:1448-1472 | the loop over the hints, with the discard names it counts up, gives the plan that the hints' answers make up in order, or the tokeniser's error |
| FixPlan.PlanAnswersExactly | tools/hllint.py:1448-1472 | the edits of a plan are exactly those the strategies gave for its hints, and its skips exactly those of the hints not located, under their own rule and line |
| FixPlan.PlanInOrder | tools/hllint.py:1448-1472 | a plan is the hints' answers one after the other, each with its own edits or its own skip |
| FixPlan.DiscardIsNumbered | tools/hllint.py:1460-1467 | a round's first discarded result is bound to `_ignored`, its n-th to `_ignored` followed by n |
| FixPlan.DiscardsDiffer | tools/hllint.py:1452-1455 | no two discarded results of a round are bound to one name |
| FixLoop.FixSource | tools/hllint.py:1261-1312 | the result is the last of the versions that the verified rounds give, at most eight rounds run, the last version is tried exactly if fewer than eight were kept and a fixable hint is left in it, the reported counts are, per rule, the warnings resolved between versions, and the skip report is that of all rounds tried, in order |
| FixLoop.TryRound | tools/hllint.py:1281-1297 | one round gives the spliced source exactly when it differs and passes verification, and reports the hints not located, the edits dropped for an overlap, and every hint of a round that failed in planning or was rolled back |
| FixLoop.VerdictExactly | tools/hllint.py:1844-1872 | each verdict on a candidate is given exactly when it is deserved: it passes exactly if the file is no worse for it and some warning is resolved |
| FixLoop.RoundExactly | tools/hllint.py:1278-1303 | a round is kept exactly if its edits change the file, make it no worse and resolve something, and what is kept is the spliced file |
| FixLoop.FixableSelects | tools/hllint.py:1275-1276 | the hints tried are those of the rules that have a strategy, in order |
| FixLoop.KeysCount | tools/hllint.py:1298-1299 | warnings are counted by rule and message |
| FixLoop.ReportBalances | tools/hllint.py:1298-1302 | of each rule, the warnings reported as fixed and those left are together those of the original and those that appeared on the way |
| FixLoop.NoSkipIsSilent | tools/hllint.py:1278-1297 | every fixable hint of a round is answered: if planning failed or its strategy gave up, that is reported under its own rule and line; else its strategy gave edits, each kept or reported as subsumed under the rule and line it carries, and the round was kept, or its edits change nothing, or the hint is reported as rolled back |
| SkipReport.ReportIsTrue | tools/hllint.py:1278-1297 | a round reports nothing that is not so: each skip is of a hint of the file or a dropped edit, with its true reason |
| SkipReport.ChangesNothingExactly | tools/hllint.py:1287-1291 | the edits of a round change nothing exactly if there are some, their growths cancel, and every piece stands already where it would land |
| SkipReport.HintsTriedAreAnswered | tools/hllint.py:1246-1250 | every hint of every round that a run tries is so answered by what the whole run reports, and every round tried but that of the result was kept |
| SkipReport.HintsLeftAreReported | tools/hllint.py:1246-1250 | the report has a fixable hint left in the result, by rule and line, exactly if an earlier round reported one such, or fewer than eight rounds were kept and, should the edits planned for the result change nothing, that plan skips or drops one such |
| SkipReport.CapIsSilent | tools/hllint.py:1253 | a valid planner and files on which eight rounds are kept, a fixable hint is left whose round would be kept too, and the report is empty |
| SkipReport.EmptyDeletion | tools/hllint.py:1675-1684 | the deletion of a dead run is empty exactly if the byte taken for its start is a closing brace |
| SkipReport.EmptyDeletionIsSilent | tools/hllint.py:1803-1810 | on every file with such a start a valid linter and this strategy keep no round, leave the hint, and report nothing |
| FixLoop.CountRules | tools/hllint.py:1299-1302 | the counters grow, per rule, by the number of resolved warnings |
| FixLoop.RunIsNoWorse | tools/hllint.py:1844-1872 | no version has more warnings than the original or more of any one unfixable warning; a clean crate stays clean, a broken one ends clean or with the same error |
| FixLoop.ReportedTotal | tools/hllint.py:1299-1312 | the reported total is at least the number of kept rounds and at least the net drop in warnings |
| FixLoop.EarlyStopIsFinal | tools/hllint.py:1261-1312 | a run that stops before the last round has reached a source that further rounds do not change |
| DebugEngine.RunKeepsInv | tools/hls-dap.py:456-471 | after any interleaving a thread waits exactly when it is paused, and one stopped at a statement shows its own frames |
| DebugEngine.StopsExactly | tools/hls-dap.py:412-454 | a running thread stops at a statement for an entry stop, even without debugging; else, debugging, for a breakpoint on the line, its step command, or a pause asked for, in this order; it shows the frames and uses up its own request only; otherwise it executes the statement |
| DebugEngine.PanicParks | tools/hls-dap.py:1069-1090 | a panic parks its thread, shown at the panic's frames, and touches no other |
| DebugEngine.PausedIsFrozen | tools/hls-dap.py:456-471 | while paused and not released a thread executes nothing, its frames, snapshot and reason stay, and its command changes only when one is issued to it |
| DebugEngine.PauseLasts | tools/hls-dap.py:456-471 | over any run, from a stop until a command is issued to it, a thread stays paused with its frames and snapshot as at the stop and executes nothing |
| DebugEngine.LeavesOnlyOnItsCommand | tools/hls-dap.py:503-524 | a thread that stopped and later runs was in between sent a continue, or a step of its own |
| DebugEngine.StepReleasesNoOther | tools/hls-dap.py:516-524 | after a step of one thread, another paused thread's wake-up changes nothing and it stays paused |
| DebugEngine.ContinueReachesAll | tools/hls-dap.py:503-514 | after a continue every paused thread holds a command and its next wake-up ends its pause |
| DebugEngine.ReleaseEndsThePause | tools/hls-dap.py:456-471 | a blocked thread that has a command leaves its wait at the next wake-up, to execute its statement under that command, or after a panic with none |
| DebugEngine.Debugger.HookEnter | tools/hls-dap.py:387-405 | the hook's new state is that of the protocol's step for entering a function |
| DebugEngine.Debugger.HookLeave | tools/hls-dap.py:407-410 | the hook's new state is that of the step for leaving one |
| DebugEngine.Debugger.HookStatement | tools/hls-dap.py:412-454 | the hook's new state and outcome, running on or stopping and why, are those of the step for a statement |
| DebugEngine.Debugger.Woken | tools/hls-dap.py:456-471 | a return from the wait has the outcome of the protocol's wake-up |
| DebugEngine.Debugger.ResumeContinue | tools/hls-dap.py:503-514 | exactly the paused threads are told to continue, and the answer says whether there was one |
| DebugEngine.Debugger.ResumeStep | tools/hls-dap.py:516-524 | only the addressed thread is commanded, with the depth of its snapshot, and only if it is paused |
| DebugEngine.Debugger.RequestPause | tools/hls-dap.py:526-530 | the request is recorded on that thread alone and the answer says whether it was running |
| Stepping.StackMirrorsCalls | tools/hls-dap.py:387-410 | after any part of a well-bracketed call tree the hook stack holds exactly the calls that enclose that point |
| Stepping.HookMirrors | tools/hls-dap.py:387-454 | each hook keeps the engine's frame names equal to that stack |
| Stepping.StopsAtFirstWanted | tools/hls-dap.py:412-454 | a running thread stops at the first statement that is on a breakpoint of its function's file, or that its command asks for, or at once if a stop is pending, and executes all before it |
| Stepping.StepStopsWhereItShould | tools/hls-dap.py:412-524 | on every call tree, with any breakpoints: after next the stop is the first later statement no deeper, after step-out the first one less deep, after step-in the very next one, after continue none of these; or the first one before that on a breakpoint, or the very next one if a stop is pending |
| Stepping.OthersDoNotMatter | tools/hls-dap.py:387-454 | with any actions of other threads, commands to them and continues in between, a running thread stops at the same event as alone, once it has had its turn there |
| Stepping.StepStopsAmongOthers | tools/hls-dap.py:412-454 | so on every call tree and in every such interleaving, no statement the thread is to stop at is passed, and it stops at the first one it has a turn at |
| Stepping.PauseIsHonoured | tools/hls-dap.py:526-530 | a pause asked of a running thread stops it at the first statement it has a turn at, whatever its command and the other threads do |
| Stepping.FirstCall | tools/hls-dap.py:387-405 | a thread first seen at a call runs without a command and with nothing pending |
| Stepping.NextSkipsCalls | tools/hls-dap.py:412-454 | next itself asks for no stop at a statement within a call that the current statement makes |
| Stepping.OutLeavesTheCall | tools/hls-dap.py:412-454 | step-out itself asks for no stop at a statement within the current call |
| ImportGraph.WalkImportGraph | tools/hls-audit.py:195-219 | the walk succeeds exactly when every reachable module parses and all its imports are found, and else names one that does not; its order then lists each reachable module once, with import cycles too, and never a nearer one after a farther one; its edges are each module's imports, once each in path order |
| ImportChains.SearchParents | tools/hls-audit.py:222-241 | the parents found by the search are one edge closer to the root, and every connected module has one |
| ImportChains.DistanceIsLeast | tools/hls-audit.py:222-241 | no path from the root to a module is shorter than the recorded distance |
| ImportChains.ChainToRoot | tools/hls-audit.py:222-241 | for a connected module the chain is a path of edges from the root of minimum length; the two-element fallback is given exactly when it is not connected |
| ImportChains.ExplainModule | tools/hls-audit.py:195-241 | every module in a walk's order gets a shortest chain of imports from the root, so never the fallback |
| PackageWalk.WalkPackages | tools/hls-audit.py:409-454 | the walk ends on every finite graph; a refusal names a trouble that a real dependency path runs into (for a cycle, the names along a path from a directory back to itself), and success yields one node per dependency path, each with its package, depth, parent and dependencies in order |
| PackageWalk.Attach | tools/hls-audit.py:446-453 | linking a finished subtree to its parent leaves every other node as it was |
| PackageWalk.GraftGrows | tools/hls-audit.py:446-453 | attaching the next dependency's tree keeps nodes and dependency paths one to one |
| PackageWalk.TroubleIsNotFine | tools/hls-audit.py:416-434 | a reported trouble means that some dependency path cannot be walked |
| PackageTree.WalkRoot | tools/hls-audit.py:409-454 | from the root the walk succeeds exactly when no reachable package is unreadable, has an unresolved dependency, or lies on a cycle |
| PackageTree.HealthyIfFine | tools/hls-audit.py:409-420 | no dependency path meets a directory twice exactly when no reachable directory depends on itself |
| PackageTree.ChainNames | tools/hls-audit.py:542-548 | climbing parents gives the names along the node's dependency path, root first, one more than its depth |
| PackageTree.AllNodes | tools/hls-audit.py:531-539 | the list holds the node of every dependency path below the start exactly once, parents before dependencies and dependencies in order |
| ModelCheck.CountPanics | tools/hlmodel.py:121-142 | the violations are the number of panicking (state, event) pairs of the whole domain, none exactly when no transition panics |
| ModelCheck.SearchStates | tools/hlmodel.py:159-229 | seen is exactly what some event sequence reaches, dead the rest, the bad list exactly the reachable states that break the invariant, the breach list exactly the reachable contract violations, and edges the number of transitions out of reachable states |
| ModelCheck.CheckMachine | tools/hlmodel.py:121-232 | exit code 0 holds exactly when no pair of the whole domain panics and the invariant, if given, holds on every state reachable from a valid start (the first state, if none is given); the search it reports is the one above, from that start |
| ModelCheck.PassesMeansEveryRunIsSafe | tools/hlmodel.py:9-26 | for a transition of the documented type, that is the same as: no run of any length from any state panics, and the invariant holds after every run from the start |
| BenchStats.QuantileInterpolates | tools/hls-bench.py:287-301 | the quantile is the piecewise linear graph through the ordered samples, read at q(n-1) |
| BenchStats.QuantileHitsTheSamples | tools/hls-bench.py:287-301 | at k/(n-1) it is the k-th sample itself |
| BenchStats.QuantileBetween | tools/hls-bench.py:287-301 | it lies between its two neighbours, so between least and greatest sample |
| BenchStats.QuantileMonotone | tools/hls-bench.py:287-301 | it is monotone in q |
| BenchStats.QuantileScales | tools/hls-bench.py:287-301 | it follows every change of unit and origin |
| BenchStats.QuantileRank | tools/hls-bench.py:287-301 | at most q(n-1) rounded up samples lie below it, at most (1-q)(n-1) rounded up above it |
| BenchStats.MedianOfPermutation | tools/hls-bench.py:304-305 | the median depends only on the multiset of samples |
| BenchStats.MedianSplits | tools/hls-bench.py:304-305 | at most half of the samples lie strictly on either side of the median |
| BenchStats.MedianScales | tools/hls-bench.py:304-305 | the median follows a positive change of unit and a change of origin |
| BenchStats.MeanBalances | tools/hls-bench.py:274-276 | the samples' distances from the mean cancel, and from no other value |
| BenchStats.BootstrapCi | tools/hls-bench.py:339-355 | the interval is that of the drawn resamples' statistics, and is missing exactly for no data, or for several samples without a resample |
| BenchStats.CiWithinSamples | tools/hls-bench.py:339-355 | for any draws, and for the median and the mean, lower bound <= upper bound, both within the range of the samples |
| BenchStats.CiRanks | tools/hls-bench.py:339-355 | the interval leaves a fortieth of the resampled statistics on either side, rounded up to whole ones; each statistic is that of the samples drawn |
| BenchStats.CiScales | tools/hls-bench.py:339-355 | with the same draws the interval follows a positive change of unit and a change of origin |
| OutlierCounts.ClassifyOutliers | tools/hls-bench.py:315-336 | each count is the number of samples in its interval between the Tukey fences, and the four counts with the inliers total n |
| OutlierCounts.KindsByDistance | tools/hls-bench.py:315-336 | outliers lie more than one and a half interquartile ranges outside the quartiles, severe ones more than three |
| OutlierCounts.CountsOfPermutation | tools/hls-bench.py:315-336 | the counts do not depend on the samples' order |
| OutlierCounts.CountsScale | tools/hls-bench.py:315-336 | the counts do not change with unit or origin |
| OutlierCounts.FewOutliers | tools/hls-bench.py:315-336 | on each side at most a quarter of the samples, rounded up, are outliers |
| Decimal.PrintParse | tools/hls-bench.py:262-268 | printed numbers are canonical decimals and parse back to themselves |
| Decimal.ParsePrint | tools/hls-bench.py:262-268 | every text that passes the unsigned-integer test is what printing its value gives |
| BenchProtocol.ReadLineExactly | tools/hls-bench.py:197-259 | a line is accepted as a record exactly when it is that record's own rendering |
| BenchProtocol.RenderText | tools/hls-bench.py:713-761 | the records' lines, in literal terms |
| BenchProtocol.BearingSelects | tools/hls-bench.py:197-259 | the stem-bearing lines are those in which the stem occurs, in order |
| BenchProtocol.MalformedExactly | tools/hls-bench.py:197-259 | a line is an error exactly when the reserved stem occurs in it and it is no record's rendering |
| BenchProtocol.ParseProtocol | tools/hls-bench.py:197-259 | the records returned are, in order, exactly the stem-bearing lines before the first malformed line, or all of them |
| BenchProtocol.ParsesExactly | tools/hls-bench.py:197-259 | parsing succeeds exactly when every stem-bearing line is some record's rendering, and then with the only records there can be |
| BenchProtocol.GluedLineIsMalformed | tools/hls-bench.py:56-62 | a record printed after unfinished output on its line is always an error, never lost |
| BenchRun.CheckRecords | tools/hls-bench.py:1058-1110 | a refusal names something that is wrong with the records, and without one nothing is; a result holds the records' own samples, units and harness |
| BenchRun.SamplesInOrder | tools/hls-bench.py:1058-1110 | the timings are those of the sample records, in order |
| BenchRun.LastOneCounts | tools/hls-bench.py:1058-1110 | of several harness or units records the last one counts |
| BenchRun.WarmUp | tools/hls-bench.py:718-747 | the warm-up's batches double from one, and only the last spends the budget or reaches the largest size; a sample gets as many iterations as fit the sample time at that batch's whole nanoseconds an iteration, at least one, brought within the plan's bounds |
| BenchRun.SizedWithinBounds | tools/hls-bench.py:740-747 | an adaptive sample size never exceeds the upper bound, nor falls below the lower one when the bounds are in order |
| BenchRun.RunDriver | tools/hls-bench.py:695-763 | with noise in whole lines free of the stem and batches that fit the sink, the driver's output says exactly its units, samples and harness records, in order |
| BenchRun.SinkStays | tools/hls-bench.py:634-665 | a batch of at most 4.6e16 iterations cannot bring the sink to its bound, whatever the bench returns, so the driver never prints the sink's line |
| BenchRun.SinkShowsExactly | tools/hls-bench.py:700-702 | the sink's line is printed exactly if the sink is below minus two to the power of 62 |
| BenchRun.IntegersCountSmall | tools/hls-bench.py:634-665 | an integer adds its remainder by a hundred to the sink |
| BenchRun.SinkLineIsRefused | tools/hls-bench.py:700-702 | the sink's line, were it printed, would be a protocol error |
| BenchRun.SaidIsRead | tools/hls-bench.py:197-259 | output that says records without negative numbers parses to exactly those; with a negative number it is refused |
| BenchRun.MeasureBench | tools/hls-bench.py:1016-1110 | a driver that does not run through is a skip exactly if it exits with 101 and the skip mark, else a failure; otherwise, for any clock and such noise, a result is given exactly when every sample's time is positive, the harness time is not negative, at least one iteration was measured and declared units are positive; and it is what the driver measured |
| Minimize.MinimizeProgram | tools/hls-fuzz.py:290-349 | the result still diverges, keeps everything through `fn main` and from the last `return 0`, has a subsequence of the original body, and is 1-minimal when more than one body line is left; a program without such a body is returned as it is |
| Minimize.Pass | tools/hls-fuzz.py:337-347 | a pass that changes something leaves a shorter diverging body; one that changes nothing shows that no single line can go |
| Minimize.OpensMainExactly | tools/hls-fuzz.py:300-304 | `main` can open at the lines that begin with `fn main` |
| Minimize.EndsBodyExactly | tools/hls-fuzz.py:309-313 | the body can end at the lines that are `return 0` with blanks around it |
| Minimize.BuildLines | tools/hls-fuzz.py:320-323 | the rebuilt program's lines are the lines before, the body's (one empty line if none), and those after |

## Left out

- FinalAudit.Decide: refusals carry which rule fired, not its wording, and the set of closure refusals has no order; what is said of entries one by one is said of lawful ledgers, as all reachable ones are.
- Ledger.FormatIdIsReadable: an id's digits are the ten ASCII ones; the reader's `isdigit` also takes digits of other scripts, so it accepts some ledgers made by hand that `Ledger.ReadLedger` refuses. No command writes such an id.
- Ledger.ReadLedger: works on decoded entries; JSON, the raw bytes of a line, and digests as hex text are not modelled (a digest is a number, the hash an unbounded function assumed collision-free only where a lemma says so), and an empty ledger file is not told apart from a missing one.
- AuditLaws.SealIsFinal: says nothing of drift recorded by a past pass, which closure does not read.
- AuditSeals.SealedFixesLanded: measured by what the sealing step was told; answers that earlier commands of the run got are not used.
- DebugEngine.Step: expression evaluation while other threads run, adapter ids and variable handles are not modelled; one step is one hold of the lock.
- DeadCode.ExecBlock: what an expression calls and how it ends is an arbitrary oracle over the state; values inside expressions are not modelled.
- FixLoop.FixSource: claims no convergence to a source without warnings; the strategies are arbitrary, but for a hint they locate they give at least one edit, inside the source, as each of them does or else raises.
- FixPlan.PlanHints: why a hint was not located, and the tokeniser's error, are not modelled.
- PackageWalk.WalkPackages: the audit cache is never filled by its caller and is not modelled; how a dependency's directory is found, and manifests' other fields, are inputs; which of several troubles is met first is not stated.
- ModelCheck.SearchStates: the interpreter is a deterministic function of state and event whose results are variants of finitely many enums, told apart by their names; the order of the search's output is not stated.
- SkipReport.EmptyDeletionIsSilent: where a dead run starts is given; the search for a statement's first token is not modelled.
- AttributeLines.ScannerIsRightExactly: strings are taken to lex (no control character in one), as the linter's parse ensures before any fix.
- Stepping.StepStopsAmongOthers: interleavings from the thread's release on; between the command and the release a continue may replace the command.
- BenchStats.BootstrapCi: reals instead of floating point; the random generator's draws are an input.
- BenchProtocol.ParseProtocol: bytes are characters, and the interpreter's limit on the digits of a number is not modelled.
- BenchRun.MeasureBench: a bench that itself exits with 0 before the driver is done, the text of a skip's reason, and baselines; counters do not wrap around at 64 bits; what a bench prints is whole lines there (unfinished lines are `BenchProtocol.GluedLineIsMalformed`).
- Minimize.MinimizeProgram: compiling and running both backends is one deterministic test of the program text; blanks outside ASCII are not stripped.
- The strategies that locate a hint's tokens, and every lint rule but L007: separate heuristics over tokens.
- L005's flow of uninitialised names: a heuristic without a stated guarantee.
- Program generation in the fuzzer: makes no claim that holds of all its output.
- Welch's test, confidence intervals of slopes, and rendering of reports, briefs and trees: numerics and text.
- The audit kit and the compile-time bench: the same ledger without a seal and the same statistics again.
- File handling, subprocesses, git itself, SHA-256, the debug adapter's messages, and all other tools.
