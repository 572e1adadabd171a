# Dafny model of the feature-fix-swarm gates, filing and installer

The swarm keeps its authority in small durable state machines: an evidence ledger guarded by an
advisory lock, a two-file takeover transaction, a write-ahead filing ledger around `gh issue create`,
an installer with an undo log, and a few canonical encodings. This project models them in Dafny and
proves what they are for. Crashes, interleavings and environment answers are inputs that range over
everything; SHA-256 and directory fingerprints are taken to be injective, rename and replace to be
atomic, and git, `gh` and the external profile installer to answer arbitrarily.

| file | models | main results |
|---|---|---|
| `Takeover.dfy` | consume and recovery as lists of durable operations; a crash is a prefix | `CrashThenRecover`, `EqualBytesRollBack` |
| `TakeoverRuns.dfy` | every interleaving with recoverers, ledger writers and crashes | `RecordUnderOneName`, `OkMeansConsumed`, `ConsumedWasAnnounced`, `SilentConsumption`, `OutcomeExactly`, `SuccessorIsRecognised`, `RecoveryOutcomes`, `RecoveryAmongNewcomers`, `NewcomerLostExactly` |
| `TakeoverStore.dfy` | the same as step-by-step procedures on one mutable store | `Store.Consume`, `Store.Reconcile` |
| `RetroFiling.dfy` | the retro ledger on disk and in memory, and the tracker behind `gh` | `FilingExactly`, `AtMostOneExactly`, `OrphanBlocksForever`, `OccurrencesConserved` |
| `LoopCaps.dfy` | durable loop reservations, counters, count histories and resets | `GrantsAreExact`, `ReserveAnswer`, `FirstReservation` |
| `FindingsQueue.dfy` | findings dedup, similarity fold, reopen and adjudication | `NothingLost`, `ReportExactly`, `ResolveExactly`, `ReportIsVisible`, `ListHasExactlyTheMatches` |
| `RungBreaker.dfy` | the twenty-attempt window and the probe counter | `TrippedExactly`, `ProbeDueExactly` |
| `ProdGate.dfy`, `ProdActions.dfy`, `ProdStore.dfy` | production authorisation over the whole ledger, from the spelling of the action on | `AuthorisedExactly`, `ProdSurfaceExactly`, `PromotedExactly`, `OnlyLedgerRunsAreAuthorised`, `FailedRerunWithdraws` |
| `Registry.dfy` | the environment-registry parser | `RoundTrip`, `ParsesPrinted`, `ParsedExactly`, `AcceptedShape`, `NeutralLinesDoNotMatter` |
| `Installer.dfy` | the undo log and its reverse-order undo, with pairwise apart guarded entries and plain ones nested in any way | `RestoreIs`, `ConflictsExactly`, `RestoreEachPath` |
| `InstallerRuns.dfy` | histories of one transaction: user-scope, guarded and external steps with all their failures | `RestoreReturnsEverything`, `ExternalExactly` |
| `InstallerRollback.dfy` | the committed backup and rollback by id | `RollbackExactly`, `NestedRollbackExactly`, `InstallThenRollback` |
| `InstallerStore.dfy` | the backup object and its callers as procedures on one mutable file system | `Transaction.InstallProfiles`, `Transaction.RollbackById` |
| `EntryReplace.dfy` | replacing one entry through quarantine under interference | `FailureLosesNothing`, `SuccessIsExact`, `DamageExactly` |
| `EntryUndo.dfy` | that procedure as a step of a history, and what an undo makes of newcomers | `EntryIsStep`, `NewcomerSurvivesUndo` |
| `CollapsePaths.dfy` | the ancestor-collapsing loop | `Collapse`, `CollapseIsUnique` |
| `CanaryProof.dfy` | binding a proof bundle to a Canary session and a scenario source | `VerifyProof`, `ExactlyOnePassingStep` |
| `TreeFrame.dfy` | the byte stream hashed for a runtime tree | `StreamIsInjective`, `StreamExtends` |
| `TomlString.dfy` | the TOML basic-string printer | `RoundTrip`, `BodyIsClean` |

Code that edits state in place is a class whose methods are proved equal to a pure function of the old
state; the theorems about whole histories are lemmas about that function. A run is a sequence of
events, and a theorem about "every run" is an induction over that sequence. Inductions are written out:
lemmas for which Dafny would assume an induction hypothesis of its own carry `{:induction false}`.

## What the proofs found

- **Takeover, equal bytes.** Recovery tests "original" before "desired" (`lib/gates.py:3065`), so the
  crash guarantee needs the two to differ. `ClearedDiffers` says exactly when they do: unless the row was
  already cleared at this very second in canonical layout. `EqualBytesRollBack` shows what happens
  otherwise: every consume that died before its last step is rolled back, even after printing its success.
- **Takeover, silent consumption.** The intent is read before the lock is held. The guarantee that a
  consumed record was announced holds if recoverers act only on an intent still on disk, or if ordinary
  writers never publish the desired bytes (`ConsumedWasAnnounced`); with both freedoms
  `SilentConsumption` builds a run that breaks it, for every transaction.
- **Takeover, superseded.** The docstring of recovery promises that every recognised outcome is one of
  active+original and consumed+cleared (`lib/gates.py:3003-3005`). `RecoveryOutcomes` says exactly when it
  is: when the evidence still holds the original or the desired bytes. Otherwise the outcome is superseded,
  the successor's evidence stays, and the record goes from its provisional name back to the active one
  (or aside, if that is taken) and otherwise stays where it is. The model follows the code.
- **Takeover, newcomers.** A recovery interrupted between any two steps by new records under the vacant
  active name still settles the transaction (`RecoveryAmongNewcomers`), but it may destroy such a record:
  rolling back renames onto the active name without looking, and a superseded record is moved there after
  a look that is not part of the rename. `NewcomerLostExactly` says exactly when.
- **Takeover, phases.** Recovery classifies without reading the recorded phase at all, so its
  irrelevance (`PhaseIsIrrelevant`) is a remark rather than a result.
- **Retro filing, timeouts.** "At most one issue per fingerprint" rests on a nonzero `gh` exit meaning
  that nothing was created. The code turns a timeout into exit 124. `AtMostOneExactly` gives the exact
  condition over all histories: at most one issue if and only if no filing passes its create guard after
  an earlier create of that fingerprint happened but was reported as failed. `TimeoutDuplicates` builds the
  duplicate from every ledger with room for two creates.
- **Production gate, run ids.** `check_grant_prod` lets run ids that are not ledger-shaped skip the two
  review checks, but `record_promotion` raises for them before recording anything for prod, so no such
  run is ever authorised (`OnlyLedgerRunsAreAuthorised`).
- **Installer, claimed files.** After the upstream installer ran, every path of its new manifest that was
  not snapshot is recorded as formerly missing, without a look at what was there before
  (`lib/ffs_installer.py:828-834`, `lib/ffs_installer.py:1884-1902`). A user's own file at such a path is
  deleted by the restore, even if the upstream installer never touched it (`ClaimedFileIsDeleted`).
  `ExternalExactly` gives the exact condition for one run.
- **Installer, half removals.** A guarded replacement whose removal of the quarantined prior directory stops
  halfway has written its "after" already (`lib/ffs_installer.py:1158-1165`). The handler puts the remains
  back, and the undo finds them different from "after", reports a conflict and keeps the damage
  (`HalfRemovalIsKept`). `RestoreReturnsEverything` says path by path what any history gives back; when
  nothing was changed behind the log, claimed files and late failures are all that is lost.
- **Installer, late failure.** A late failure is reported as a conflict exactly when something else than
  "after" is at the path, even if it is the right prior content; nothing else is reported as a conflict.
- **Installer, newcomers.** An entry that another process creates under the vacant name is never overwritten
  by the replacement, but the undo removes it when the prior entry was recorded without an "after":
  `NewcomerSurvivesUndo` says exactly when it survives.
- **Installer, nesting.** The undo of a failed transaction needs no assumption about how its user-scope
  paths nest. Rollback by id does: `NestedRollbackExactly` says when it exits with 0, for every nesting.
  The nesting an installation produces -- a file of the old manifest, then the directory over it as newly
  created -- never rolls back (`CreatedOverOldRefuses`).
- **Entry replacement, half removals.** A failed call damages the prior entry if and only if it got as far as
  removing it and the removal stopped halfway (`DamageExactly`).
- **Findings, repeated reports.** A report whose signature is already on file, unresolved and with a lower
  severity, does not raise that severity; `ReportIsVisible` says that this is the only such case.

## Model

| member | source | states |
|---|---|---|
| `Takeover.ClearedDiffers` | lib/gates.py:3183-3191 | the published bytes equal the original ones exactly when the row was already cleared at the same second in canonical layout |
| `Takeover.ClearedExactly` | lib/gates.py:3183-3192 | the published ledger differs in the run's row alone, for every other field, run and key; and when there is one to publish |
| `Takeover.ConsumePrefix` | lib/gates.py:3213-3239 | where record, evidence, intent and output are after any number of durable steps of consume |
| `Takeover.CrashThenRecover` | lib/gates.py:3213-3247 | consume dying anywhere, then recoveries dying any number of times, then one recovery: no intent, and active+original or consumed+cleared according to whether the evidence was replaced |
| `Takeover.EqualBytesRollBack` | lib/gates.py:3065-3074 | with equal original and desired bytes every unfinished consume is rolled back, even after its success line |
| `Takeover.PhaseIsIrrelevant` | lib/gates.py:3003-3119 | the recorded phase influences neither the outcome nor the final state of a recovery |
| `TakeoverRuns.RecordUnderOneName` | lib/gates.py:3051-3119 | in every interleaving the record's inode is listed under exactly one name |
| `TakeoverRuns.OkMeansConsumed` | lib/gates.py:3075-3087 | TAKEOVER-OK is only ever printed with the record consumed and the desired bytes in place |
| `TakeoverRuns.ConsumedWasAnnounced` | lib/gates.py:3084-3115 | a consumed record without an intent was announced as OK or SUPERSEDED, unless stale readers meet echoing writers |
| `TakeoverRuns.SilentConsumption` | lib/gates.py:3016-3041 | the exception is real: a run with both freedoms that consumes the record and prints nothing |
| `TakeoverRuns.TornIntentIsInert` | lib/gates.py:3024-3047 | an unreadable intent freezes the transaction: no later event moves the record or prints |
| `TakeoverRuns.RecoveryOutcomes` | lib/gates.py:3060-3119 | a recognised outcome leaves no intent and nothing provisional, with record and evidence as told, and is one of the two promised states iff the evidence holds the original or desired bytes; an unexplained one changes nothing |
| `TakeoverRuns.OutcomeExactly` | lib/gates.py:3044-3119 | from every reachable state, which outcome an intact image gets, as an iff on evidence and record |
| `TakeoverRuns.SuccessorIsRecognised` | lib/gates.py:3088-3116 | consume dying anywhere, a successor's ledger and one recovery end superseded with the record swept, iff the ledger is in another file |
| `TakeoverRuns.RecoveryAmongNewcomers` | lib/gates.py:3060-3119 | a recovery with new active records appearing between any of its steps ends as it would have without them |
| `TakeoverRuns.NewcomerLostExactly` | lib/gates.py:3065-3106 | a record under the active name is overwritten exactly when the recovery still has to move its own there: rolling back from elsewhere, or superseded after a vacant look |
| `TakeoverStore.AdmitGivesBasis` | lib/gates.py:3154-3212 | consume's checks under the lock establish the basis of the transaction's theorems, given fresh names and a record that names this store |
| `TakeoverStore.AdmittedExactly` | lib/gates.py:3154-3212 | for which world and request consume goes ahead, and what it will publish |
| `TakeoverStore.Store.Consume` | lib/gates.py:3129-3254 | consume performs exactly the prefix of its plan its process lives for, and a caught fault runs recovery under the same lock |
| `TakeoverStore.Store.Reconcile` | lib/gates.py:2998-3126 | the recovery procedure performs exactly the prefix of the classified plan |
| `RetroFiling.FilingConserves` | lib/retro_state.py:296-354 | one filing raises its fingerprint's total by exactly its count unless deferred, touches no other, and publishes the new total |
| `RetroFiling.FilingExactly` | lib/retro_state.py:296-354 | the one row a filing adds, by which branch, on which issue, with which outcome |
| `RetroFiling.CommentsFollowIssues` | lib/retro_state.py:302-304 | in every history a comment on a fingerprint with a recorded issue is on the smallest number then recorded |
| `RetroFiling.AtMostOneIssue` | lib/retro_state.py:305-344 | over all filings and deaths: at most one intent row, and at most one issue beyond forgotten creates |
| `RetroFiling.RaisesExactly` | lib/retro_state.py:296-344 | an event makes an issue exactly when the create guard holds and the tracker acts |
| `RetroFiling.ForgottenExactly` | lib/retro_state.py:339-344 | the ledger has forgotten an issue iff some create happened, was reported as failed, and had its intent erased |
| `RetroFiling.AtMostOneExactly` | lib/retro_state.py:296-344 | a history ends with at most one issue iff no create guard holds after such a forgotten create |
| `RetroFiling.TimeoutDuplicates` | lib/retro_state.py:215-221 | from every ledger with room for two creates, a create that happened but returned nonzero is repeated by the next filing |
| `RetroFiling.OrphanBlocksForever` | lib/retro_state.py:305-306 | after an orphaned intent no history ever creates that issue or changes its total |
| `RetroFiling.OccurrencesConserved` | lib/retro_state.py:286-354 | over whole histories the summed row counts are exactly the credited counts |
| `RetroFiling.RunCapHolds` | lib/retro_state.py:320-321 | no history records more creates of a run than the run's cap |
| `RetroFiling.FloorHolds` | lib/retro_state.py:310-311 | a P3 finding without an issue reaches the tracker only at the occurrence floor |
| `RetroFiling.Aggregate` | lib/retro_state.py:357-371 | groups come out once per fingerprint, in order of first appearance and with the finding that appeared first, each counting exactly the admitted findings of that fingerprint |
| `RetroFiling.PayloadIsHistory` | lib/retro_state.py:374-388 | filing a payload is a history of filings up to the first death |
| `RetroFiling.Tracker.FileAndSave` | lib/retro_state.py:296-388 | `_file_one` with its mid-function publication and its caller's save leave exactly the modelled ledger, tracker and rows |
| `RetroFiling.Tracker.FilePayload` | lib/retro_state.py:374-388 | the payload loop files the aggregated groups in order until the process dies |
| `LoopCaps.CapChangesOnlyByReserve` | lib/gates.py:891-1024 | counters, notes, resets and foreign reservations never touch or remove a cap |
| `LoopCaps.GrantsAreExact` | lib/gates.py:891-1024 | granted reservations are exactly 1..used in order and never exceed the first sealed maximum, with arbitrary unlocked probes |
| `LoopCaps.ReserveAnswer` | lib/gates.py:891-917 | what a sealed loop answers to any further request |
| `LoopCaps.FirstReservation` | lib/gates.py:891-917 | the first reservation of an unsealed loop is granted iff the loop was not counted since its last reset |
| `LoopCaps.RoundAnswers` | lib/gates.py:920-968 | the round number a count or a note answers, from the history |
| `LoopCaps.ResetAnswer` | lib/gates.py:971-1024 | when a reset of one loop is refused |
| `LoopCaps.ResetAllAnswer` | lib/gates.py:971-1024 | when a reset of the whole run is refused |
| `LoopCaps.NoteRemembersPreviousRound` | lib/gates.py:939-968 | a noted count is what the next round's note is compared with |
| `LoopCaps.ResetForgetsCounts` | lib/gates.py:1017-1023 | a reset drops the count history with the counter |
| `LoopCaps.LoopStore.LoopRoundDurable` | lib/gates.py:891-917 | the locked reservation on the shared map |
| `LoopCaps.LoopStore.LoopRound` | lib/gates.py:920-936 | the plain counter, refusing malformed entries |
| `LoopCaps.LoopStore.LoopRoundNoteCount` | lib/gates.py:939-968 | count history of the active round and the previous round's count |
| `LoopCaps.LoopStore.ResetLoopRound` | lib/gates.py:971-1024 | the two-phase reset: probe without the lock, the same refusals again under it |
| `FindingsQueue.AnyRootFolds` | lib/gates.py:2328-2341 | every spelling of a planning path from any root folds to the same canonical plan |
| `FindingsQueue.CanonIdempotent` | lib/gates.py:2328-2341 | canonicalising twice changes nothing |
| `FindingsQueue.CanonAtMark` | lib/gates.py:2328-2341 | a plan's canonical text starts at its last ".planning/" |
| `FindingsQueue.CanonUnmarked` | lib/gates.py:2328-2341 | without one it is the whole text |
| `FindingsQueue.BestIsFirstMaximum` | lib/gates.py:2430-2445 | the fold picks the first eligible record of highest similarity and misses only when none is eligible |
| `FindingsQueue.NothingLost` | lib/gates.py:2366-2567 | per signature, history and current disposition are exactly the accepted resolves in order; signatures stay unique |
| `FindingsQueue.ReportIsVisible` | lib/gates.py:2366-2501 | after a report the returned record is unresolved and listed under every spelling of the plan, and less severe than the report iff the signature was on file, unresolved and lower |
| `FindingsQueue.ReportExactly` | lib/gates.py:2409-2501 | the record one report lands on, when it is a new one, and everything that changes |
| `FindingsQueue.ResolveExactly` | lib/gates.py:2529-2567 | when a resolve is refused, missed or accepted, from the reports before it, and what it changes |
| `FindingsQueue.ListHasExactlyTheMatches` | lib/gates.py:2504-2526 | the list is the matching findings, every copy of them, in the order of the queue |
| `FindingsQueue.FindingsStore.BestCandidate` | lib/gates.py:2430-2445 | the candidate loop computes that record |
| `FindingsQueue.FindingsStore.FindingsAdd` | lib/gates.py:2409-2501 | dedup, fold, reopen or insert on the mutable list |
| `FindingsQueue.FindingsStore.FindingsResolve` | lib/gates.py:2529-2567 | adjudication of one signature, with its refusals |
| `RungBreaker.WindowRefines` | lib/gates.py:443-456 | the bounded entry is the last twenty attempts and the probe count since the last reset |
| `RungBreaker.TrippedExactly` | lib/gates.py:488-496 | tripped iff at least twenty attempts followed the last reset and the last twenty failed |
| `RungBreaker.ProbeDueExactly` | lib/gates.py:499-509 | a probe is due exactly on every tenth opportunity since the last reset |
| `RungBreaker.KnownExactly` | lib/gates.py:512-521 | a rung is on record iff it was used since its last reset |
| `RungBreaker.BreakerStore.NoteAttempt` | lib/gates.py:443-456 | append and truncate on the mutable entry |
| `RungBreaker.BreakerStore.Status` | lib/gates.py:488-496 | the status reads the window |
| `RungBreaker.BreakerStore.ProbeCheck` | lib/gates.py:499-509 | the probe counter on the mutable entry |
| `RungBreaker.BreakerStore.ResetRung` | lib/gates.py:512-521 | a reset forgets the rung and says whether it existed |
| `ProdGate.EvidenceNow` | lib/gates.py:1460-1473 | evidence resolves iff each cited id's latest gate write is a runner-executed exit 0 bound to the artifact |
| `ProdGate.CanaryBinding` | lib/gates.py:1599-1612 | the canary binding in terms of the canary rows ever accepted |
| `ProdGate.PromotionRead` | lib/gates.py:1615-1652 | a promotion is in force iff some accepted, unexpired staging-to-prod promotion still resolves |
| `ProdGate.ReviewsRead` | lib/gates.py:570-579 | the critical-review test in terms of the reviews ever accepted |
| `ProdGate.FirstIsAccepted` | lib/gates.py:457-484 | the review writer takes exactly the first well-formed report of an invocation |
| `ProdGate.RatioRead` | lib/gates.py:562-567 | the degraded-ratio test is a comparison of counts over the reported invocations |
| `ProdGate.PromotedExactly` | lib/gates.py:1495-1536 | when a promotion was accepted, in terms of the history before it |
| `ProdGate.AuthorisedExactly` | lib/gates.py:1933-2049 | a non-hotfix production action is authorised iff the whole listed condition on the events holds |
| `ProdActions.ProdSurfaceExactly` | lib/gates.py:1690-1719 | which spellings of an action are production ones, and for which surface |
| `ProdActions.HotfixExactly` | lib/gates.py:1672-1687 | which spellings are production hotfixes, and for which surface |
| `ProdActions.GrantExactly` | lib/gates.py:1305-1366 | a grant is in force iff the latest one of this action to this run, made on acceptable terms, is unexpired |
| `ProdActions.ManifestExactly` | lib/gates.py:1722-1762 | what the manifest must say about a surface, by its first folded row |
| `ProdActions.RollbackExactly` | lib/gates.py:2196-2240 | the rollback command of the exactly spelled row must have been rehearsed |
| `ProdActions.PermittedExactly` | lib/gates.py:1933-2049 | the production check on a surface as a statement on manifest and history only |
| `ProdGate.OnlyLedgerRunsAreAuthorised` | lib/gates.py:1518-1521 | no run id that is not ledger-shaped is ever authorised for prod |
| `ProdGate.FailedRerunWithdraws` | lib/gates.py:1460-1473 | a later failing or caller-recorded gate write withdraws every promotion that cites it |
| `ProdStore.LedgerStore.RunGateCommand` | lib/gates.py:599-652 | the runner's write replaces the gate and binds the artifact |
| `ProdStore.LedgerStore.RecordGateEvidence` | lib/gates.py:582-596 | the caller's write replaces the gate and never counts as runner-executed |
| `ProdStore.LedgerStore.GrantAll` | lib/gates.py:1305-1355 | all grants or none, with the type, lifetime and consolidation refusals |
| `ProdStore.LedgerStore.Resolves` | lib/gates.py:1460-1473 | the evidence loop |
| `ProdStore.LedgerStore.RecordPromotion` | lib/gates.py:1495-1536 | the promotion write and its refusals |
| `ProdStore.LedgerStore.PromotionInForce` | lib/gates.py:1615-1652 | the scan over a run's promotion records |
| `ProdStore.LedgerStore.CheckGrantProd` | lib/gates.py:1933-2049 | the answer of the production check as a statement on the action's spelling, the manifest and the store's whole history; a hotfix takes the verdict of its own check |
| `ProdStore.LedgerStore.NoteInvocation` | lib/gates.py:457-484 | malformed, replay of the whole event, conflict, or new review row |
| `ProdStore.LedgerStore.RecordCanary` | lib/gates.py:2106-2135 | the canary write and its refusals of run id, commit and time stamps |
| `ProdStore.LedgerStore.RecordDryRun` | lib/gates.py:2148-2173 | the rehearsal write and its shape refusals |
| `Registry.NeutralLinesDoNotMatter` | lib/gates.py:3455-3458 | blank and comment lines change neither acceptance nor result |
| `Registry.RoundTrip` | lib/gates.py:3427-3568 | parsing printed entries gives them back iff they are printable, else rejects |
| `Registry.ParsesPrinted` | lib/gates.py:3479-3551 | rows printed with any further fields in any order parse to what their consumed fields say |
| `Registry.AcceptedExactly` | lib/gates.py:3454-3562 | the loop accepts a text iff every line is acceptable where it stands, said without the loop variables |
| `Registry.ParsedExactly` | lib/gates.py:3353-3562 | a text parses iff its lines are acceptable, it has a row, every row has a name and one consumed field, none blank, and no folded name twice |
| `Registry.AcceptedShape` | lib/gates.py:3460-3510 | an accepted text has one surfaces block and one entry per row starter in it, in order, with the starter's name and the value of the one consumed field of its row |
| `Registry.ParseManifest` | lib/gates.py:3427-3568 | the line loop with its six variables computes the specified parse |
| `Installer.RestoreIs` | lib/ffs_installer.py:854-906 | the reversed loop in closed form: paths beneath a conflict stay, every other one ends as its oldest entry recorded it |
| `Installer.ConflictsExactly` | lib/ffs_installer.py:854-906 | a restore reports no conflict iff no guarded entry differs from its "after" beforehand |
| `InstallerRuns.GuardedKeeps` | lib/ffs_installer.py:1101-1186 | a guarded replacement changes what a restore gives only if it fails unrecorded, or late with other content than "after" |
| `InstallerRuns.ReplaceKeeps` | lib/ffs_installer.py:1312-1378 | a user-scope mutation changes nothing of what a restore gives, whatever it nests with |
| `InstallerRuns.ExternalKeeps` | lib/ffs_installer.py:1866-1902 | what a restore gives after an external run, whatever it changed |
| `InstallerRuns.LastWriteStands` | lib/ffs_installer.py:1312-1378 | while a transaction runs, a path holds what the last step that wrote over it left there |
| `InstallerRuns.UntouchedStays` | lib/ffs_installer.py:1312-1378 | and what was there at the start when no step did |
| `InstallerRuns.ExternalExactly` | lib/ffs_installer.py:1866-1902 | after one external run, whatever it did, restore returns everything iff no unrecorded file was claimed and nothing unrecorded was changed |
| `InstallerRuns.ClaimedFileIsDeleted` | lib/ffs_installer.py:828-834 | a failing input: a user's file at a path the new manifest claims |
| `InstallerRuns.HalfRemovalIsKept` | lib/ffs_installer.py:1158-1186 | a failing input: the remains of a half-removed prior directory are preserved and reported |
| `InstallerRuns.RestoreAgain` | lib/ffs_installer.py:1884-1898 | a second restore, over the log finished in between or not, changes nothing |
| `InstallerRuns.RestoreReturnsEverything` | lib/ffs_installer.py:854-906 | over every history with every failure: what restore gives path by path, when it reports a conflict, and that in a tidy history exactly claimed files and late damage are lost |
| `Installer.RestoreEachPath` | lib/ffs_installer.py:859-897 | an entry that stands alone: changed path preserved and reported, otherwise restored, the rest untouched |
| `InstallerRollback.RollbackExactly` | lib/ffs_installer.py:2202-2273 | rollback by id for every path that stands alone, and exit code 0 iff nothing had changed when none nest |
| `InstallerRollback.NestedRollbackExactly` | lib/ffs_installer.py:2219-2265 | for every nesting: exit code 0 iff nothing changed since the commit and the entries unwind |
| `InstallerRollback.CreatedOverOldRefuses` | lib/ffs_installer.py:2219-2265 | an old file under a newly created directory makes rollback refuse without any foreign change |
| `InstallerRollback.InstallThenRollback` | lib/ffs_installer.py:836-852 | for every finished history: when rolling it back exits with 0, what it then gives path by path, and that in a tidy history this is the starting file system iff nothing was claimed |
| `InstallerStore.Transaction.RecordBefore` | lib/ffs_installer.py:711-834 | one entry per path, first snapshot wins |
| `InstallerStore.Transaction.ReplaceUser` | lib/ffs_installer.py:1312-1378 | the new tree is at its path, the rest is as before, and the log still has every older entry |
| `InstallerStore.Transaction.ReplaceProject` | lib/ffs_installer.py:1101-1186 | the guarded mutation with each of its endings |
| `InstallerStore.Transaction.RestoreUncommitted` | lib/ffs_installer.py:856-906 | the reversed restore loop |
| `InstallerStore.Transaction.RollbackById` | lib/ffs_installer.py:2202-2273 | the reversed rollback loop and its exit code |
| `InstallerStore.Transaction.InstallProfiles` | lib/ffs_installer.py:1866-1906 | after a failing external installer and both handlers the file system is the original one iff no unrecorded file was claimed or changed; nothing is assumed of the run |
| `EntryReplace.FailureLosesNothing` | lib/ffs_installer.py:1101-1186 | on failure the prior entry is back or in quarantine, and no foreign entry is overwritten |
| `EntryReplace.SuccessIsExact` | lib/ffs_installer.py:1123-1166 | what success means for the name, the quarantine and the required prior content |
| `EntryReplace.SucceedsExactly` | lib/ffs_installer.py:1101-1166 | for which course of events the call succeeds |
| `EntryReplace.DamageExactly` | lib/ffs_installer.py:1162-1186 | a failed call damages the prior entry iff it reached a removal that stopped halfway with something else left |
| `EntryReplace.AllOrNothing` | lib/ffs_installer.py:1101-1186 | undisturbed, the name ends with the new content or with the prior one |
| `EntryReplace.Parent.ReplaceEntry` | lib/ffs_installer.py:1101-1186 | the procedure with its two flags and its handler |
| `EntryUndo.EntryIsStep` | lib/ffs_installer.py:1101-1186 | the entry procedure leaves exactly the content and the log entry of the history step it is taken for |
| `EntryUndo.UndoneEntry` | lib/ffs_installer.py:854-906 | what is at a path after an entry call, however it ended, and the undo of its transaction |
| `EntryUndo.NewcomerSurvivesUndo` | lib/ffs_installer.py:867-880 | when an entry another process put under the vacant name survives the undo |
| `CollapsePaths.CollapseIsUnique` | lib/ffs_installer.py:1856-1863 | a covering antichain of the input is exactly its set of minimal paths |
| `CollapsePaths.TwoCollapsesAgree` | lib/ffs_installer.py:1856-1863 | the result does not depend on how ties in the order are broken |
| `CollapsePaths.Collapse` | lib/ffs_installer.py:1856-1863 | the loop returns a covering antichain of its input |
| `CanaryProof.StepScenario` | lib/runtime_proof.py:248-263 | explicit ids decide alone, a name must match exactly one id |
| `CanaryProof.CrossCheckCanary` | lib/runtime_proof.py:266-372 | no finding iff steps and identified scenarios are in bijection and all pass |
| `CanaryProof.CheckCoverage` | lib/runtime_proof.py:435-467 | no finding iff every wanted source scenario is bundled with the source's kind |
| `CanaryProof.VerifyProof` | lib/runtime_proof.py:470-533 | a canary proof verifies iff all of these hold |
| `CanaryProof.ExactlyOnePassingStep` | lib/runtime_proof.py:470-533 | a verified proof has exactly one passing step per wanted source scenario |
| `CanaryProof.AsManyStepsAsScenarios` | lib/runtime_proof.py:333-372 | a verified proof has as many steps as scenarios |
| `TreeFrame.StreamIsInjective` | lib/host_capabilities.py:930-934 | below 2^64 two lists of files share a stream only if they are equal |
| `TreeFrame.StreamExtends` | lib/host_capabilities.py:930-934 | one stream is a prefix of another iff its list is a prefix of the other's |
| `TreeFrame.FileLayout` | lib/host_capabilities.py:930-934 | byte by byte what a file contributes: two big-endian lengths, each before its bytes |
| `TreeFrame.ListingExactly` | lib/host_capabilities.py:912-930 | every regular file outside the excluded tops is hashed once, in order, and nothing else |
| `TreeFrame.TreeStream` | lib/host_capabilities.py:912-935 | the walk refuses unsafe members and otherwise feeds exactly the listed files |
| `TomlString.RoundTrip` | lib/host_capabilities.py:787-806 | TOML v1.0.0 reads the printed string back as the original |
| `TomlString.PrintIsInjective` | lib/host_capabilities.py:787-806 | different strings are printed differently |
| `TomlString.EscapeForms` | lib/host_capabilities.py:787-806 | which characters are escaped, and in which form |
| `TomlString.BodyIsClean` | lib/host_capabilities.py:787-806 | no raw control character, and an odd run of backslashes before every quote in the printed body |
| `TomlString.TomlQuote` | lib/host_capabilities.py:787-806 | the character loop prints exactly that text |

## Left out

- TakeoverRuns.RecordUnderOneName: one transaction per run of the model; a second consume starting while a recoverer still holds an older intent image is outside it, and hard links to the record are assumed absent.
- TakeoverStore.AdmitGivesBasis: the record's store anchor is copied into the intent without being compared under the lock (`lib/gates.py:3200`); a record that names another store makes an intent later recoveries call unexplained (`lib/gates.py:2990-2994`). The model assumes that it names this one.
- TakeoverStore.Store.Consume: the git policy re-gate is an arbitrary verdict, deadlines are an arbitrary answer, and fresh time-stamped names are assumed not to exist yet.
- ProdStore.LedgerStore.CheckGrantProd: the source loads the store several times without a lock (`lib/gates.py:1974-2038`), the model reads one ledger; a write between two loads is not modelled. The verdict of the hotfix check is an input, and pending rows and refusal texts are not modelled.
- ProdGate.AuthorisedExactly: malformed ledger shapes (non-dict namespaces, non-numeric expiries) are excluded by types; the source refuses them.
- LoopCaps.GrantsAreExact: stated for names without '#', as phase slugs are; a name that itself contains a suffix could collide with another loop's keys.
- FindingsQueue.FindingsStore.FindingsAdd: recorded-at times are dropped, and records written before plans were canonicalised are not part of the histories.
- Registry.ParseManifest: quoting inside scalars, error texts and the JSON form are left out; a line arrives with its shape already recognised.
- InstallerRuns.RestoreReturnsEverything: guarded project paths lie apart from all other recorded paths, external runs, which come first, do not touch them, and the file operations of the undo itself do not fail.
- InstallerRollback.NestedRollbackExactly: every "after" is the content at the commit, as finishing a log without late failures writes it; exit codes of nested logs assembled otherwise are only described path by path (RollbackExactly).
- InstallerStore.Transaction.RestoreUncommitted: file modes, empty parent directories and object-store layout are not represented.
- EntryReplace.Parent.ReplaceEntry: other processes may create an entry under a vacant name; one that replaces the freshly installed entry itself is not modelled, nor a removal by the exception handler that fails in turn; the histories of InstallerRuns allow any content to be left.
- CanaryProof.VerifyProof: per-scenario screenshot, console and URL checks enter as a count of further findings.
- Issue matching by title similarity and the choice among matching issues: queries answer arbitrarily in the filing model.
- Legacy-skill migration, doctor checks, profile staging and uninstall: environment inspection around the same undo log.
- Preflight, refutation, RED-proof, tamper-scan and delegation-audit commands: single lookups or scans.
- Consent handling and file-permission checks of the retro state: no state beyond one flag.
- The control store, supervisor and dispatch code under `lib/run_state`: not part of this model.
