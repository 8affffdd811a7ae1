# Engraphis: verified models of the stateful cores

Engraphis is a self-hosted memory service with an MCP gateway, importers for note vaults and an
optional managed cloud. This project models the parts of it that carry state across failures, other
processes or hard limits, and proves what they promise. To verify the whole project:

    dafny verify dfyconfig.toml

| file | what it models |
|---|---|
| `CloudSession.dfy` | one process refreshing the single-use cloud credential (`engraphis/cloud_session.py`) |
| `RotationProtocol.dfy` | any number of processes doing so over one session file, every interleaving, crash and lost reply |
| `Stranding.dfy` | which states and runs of it are safe from a replay, exactly |
| `SessionFamily.dfy` | what a credential family is bound to, the link between the class and the protocol, and the runs that show each hypothesis is needed |
| `ImportPlanner.dfy`, `UploadScan.dfy` | matching scanned notes to the durable manifest; scanning a browser upload |
| `ImportRevisions.dfy` | concurrent importers closing and opening revisions |
| `ImportLinks.dfy` | the batched, interruptible link reconciler |
| `ImportPager.dfy` | reading the manifest page by page |
| `DatabaseMigration.dfy` | the crash-safe two-database migration |
| `TrustedEnv.dfy` | the environment-file parser and the in-place upsert that has to agree with it |
| `EnvSyntax.dfy` | the language of that file, form by form |
| `RepeatedUpsert.dfy` | when upserting the same settings again changes nothing |
| `ResponseBudget.dfy` | the in-place reduction of a response to a token budget |
| `CapabilityRegistry.dfy` | the bounded capability table revalidated around an unlocked callback |
| `RateLimiter.dfy` | the sliding-window limiter with its sweep |
| `ManagedSnapshot.dfy` | byte budgeting of the upload document and its generations |
| `PrivateState.dfy`, `ClientIdentity.dfy` | the optimistic file read; agreement on one client identity |
| `Prelude.dfy` | options and Python's whitespace stripping |

Code that updates state in place is a class or a loop, proved equal to a function on values; the
theorems are about those functions and about runs built from them. Where the code does not give the
plain guarantee, the model keeps the code, shows a run or an input that breaks the guarantee, and
states exactly when it holds:

* A spent refresh credential can be sent again when a window between POST and save closes, by a death
  or by a retirement that is not written, with that credential still on disk; runs in which no window
  does are exactly the safe ones (`DeathInTheWindowReplays`; `Stranding.RunIsSafeExactlyWhen`). A
  bootstrap credential left in the environment is the other way (`LeftoverBootstrapReplays`;
  `ReplayExactlyWhen`).
* Each source key has exactly one live memory, whatever races: the store refuses a transaction whose key
  belongs to another source. A path has no such guarantee, because a moved note keeps its key. If one
  importer sees a note moved and another a new note at the same path, both are live there
  (`MoveSharesAPath`); it stays at one exactly when every commit at the path finds nothing of another
  source live (`OneLivePerPathExactlyWhen`), as it always does while no note moves and none is kept beside
  a diverged one (`OneLivePerPathWithoutMoves`). And a new note at the path that a moved one left is
  refused every time (`MoveBlocksThePath`; `KeyStaysTaken`, `NewNoteIsRefused`).
* A failing first migration can leave the primary published without its companion, and then no later
  run returns. That happens exactly when the primary's publication fails after its link, its removal
  fails too, and the rollback removes the companion; nothing else, and never the legacy files, is lost
  (`Machine.SplitForGood`; `Machine.Prepare`, `Machine.CrashThenRecover`).
* An upsert changes a value it was not asked to change exactly when the last text of the file is an
  unquoted, uncommented assignment ending in whitespace other than blanks (`NoBreakSpaceIsLost`;
  `UpsertOverridesExactlyWhen`). A value with a line separator other than line feed and carriage return
  is accepted, and what follows is read as lines of its own (`SeparatorAddsASetting`). Upserting such
  settings again changes nothing, whatever the file held, exactly when every further line of each value
  assigns its own key again (`RepeatedUpsert.UpsertTwiceExactlyWhen`).
* A policy revision beyond 63 bits can push an accepted snapshot over the upload cap: every accepted
  list of memories fits exactly when the revision is below a power of ten given by the digits of the
  generation and of the number of rows held back (`WideRevisionOverflows`; `UploadsFitExactlyWhen`).
* A loser of the race for the client identity whose re-read fails in passing replaces the winner's file.
  All who connect get the same identity exactly when no replacement falls between two of them taking
  theirs (`FaultSplitsTheIdentity`; `EveryoneAgreesExactlyWhen`). Nobody ever gets one exactly when a
  winner died before it removed its temporary name, or could not remove it (`DeadWinnerBlocks`;
  `BlockedExactlyWhen`).
* The comment at `engraphis/config.py:566-569` says a start that finds only the auth companion refuses
  to continue; the code, and the model, resume when the companion matches the preserved source.
* The capability table is described as evicting the least recently used entry. It does exactly as long
  as nobody issues a name that is in the table and not its newest: such a name gets a new lifetime but
  keeps its place, and in a full table it even costs the oldest entry its place
  (`ReissueKeepsItsPlace`; `EvictionIsByLastUseExactlyWhen`, `EvictsExactlyWhen`). A live name is dropped
  in some run exactly when the process has 256 capability names or more; the gateway registers some forty
  actions (`DropsExactlyWhen`).

Hypotheses that appear in the statements: no window leaves its spent credential on disk
(`StrandsNothing`; `DurableRun`, where every save lands and nobody dies in a window, implies it), no
bootstrap credential in the environment (`NoBootstrapRun`), the control plane hands out credentials it
never handed out before and consumes none before a reply that rules it out (`MayHaveConsumed`, part of
`Enabled`); every in-place write
changes a file's version stamp and stamps never recur (`StampsAreHonest`); different processes mint
different identities (`Distinct`); clocks are monotone where a
statement says so (`Monotone`, `IsNext`).

## Model

| member | source | states |
|---|---|---|
| CloudSession.NormalizeIdempotent | engraphis/cloud_session.py:135-147 | normalising a control or compute URL twice is normalising it once, so a saved URL is not rewritten by the next rotation |
| CloudSession.NormalizeCutsSlashes | engraphis/cloud_session.py:135-147 | normalising a URL cuts exactly the slashes at its end |
| CloudSession.CredentialTextStable | engraphis/cloud_session.py:727-734 | a credential that was accepted reads back as itself |
| CloudSession.CredentialTextIsTrimmed | engraphis/cloud_session.py:703-734 | a credential is the trimmed text if that is short enough and visible ASCII throughout, and nothing otherwise |
| CloudSession.SendIsUsable | engraphis/cloud_session.py:1103-1126 | nothing is ever POSTed that the record retires, that this process fenced or that is no credential; with a saved family it is the saved credential at the saved control URL |
| CloudSession.SendsExactlyWhen | engraphis/cloud_session.py:1098-1126 | a refresh is sent exactly when the offered credential is valid and neither retired nor fenced, its destinations are known and reached in time and the subject is known; the credential, URLs and subject that are sent, from the fields of record and environment |
| CloudSession.RefusesWith | engraphis/cloud_session.py:1098-1126 | a refused refresh reports 401 exactly when there is nothing to connect with, 503 exactly when a destination is not reached in time, and 409 otherwise |
| CloudSession.SessionFile.Save | engraphis/cloud_session.py:343-351 | replacing the record is atomic and may raise before or after it has landed |
| CloudSession.SessionProcess.MarkRefreshUnusable | engraphis/cloud_session.py:87-99 | the digest is fenced in memory whatever happens to the write; the record that is written retires exactly this digest |
| CloudSession.SessionProcess.Prepare | engraphis/cloud_session.py:1103-1126 | which credential, URL and subject a refresh will use, or with which status it is refused; nothing changes |
| CloudSession.SessionProcess.Settle | engraphis/cloud_session.py:1132-1224 | for every outcome and every failing write: the record left on disk, the fence and the answer |
| CloudSession.SessionProcess.AccessForWorkspace | engraphis/cloud_session.py:1046-1224 | the whole effect of one locked refresh on file, fence, POST and answer |
| CloudSession.ClassifiedBy | engraphis/cloud_session.py:823-1020 | which replies count as spent, as a rotation or as neither, from the reply alone: 401, 403 and 404, an expired deadline, a lost transport, a malformed status line and everything after a success count as spent; and the status reported |
| CloudSession.UnspentRefreshChangesNothing | engraphis/cloud_session.py:838-960 | after every other reply record and fence are as they were, and 402 and 429 are passed on, anything else is 503 |
| CloudSession.RotationIsStored | engraphis/cloud_session.py:1137-1206 | a complete rotation for the subject asked for replaces credential, URLs, subject and organization of the record; the answer is withheld, not the rotation, when the time is up |
| CloudSession.SpentRefreshIsRetired | engraphis/cloud_session.py:1132-1224 | in every other case in which the credential may have been consumed it is fenced, and retired on disk unless that write does not land; which status is reported |
| CloudSession.EntitlementAfterRotation | engraphis/cloud_session.py:1184-1201 | declared keys have their declared values; others keep theirs unless the plan changed and they belong to it |
| CloudSession.SessionProcess.RecordBillingDenial | engraphis/cloud_session.py:641-694 | an empty record stays empty; otherwise the denied record is written, and "newly denied" is reported exactly when it landed and was not denied before |
| CloudSession.SessionProcess.SaveBootstrap | engraphis/cloud_session.py:794-820 | an answer without credential or organization, or for an unknown subject, is refused with the file untouched; otherwise the record built from it replaces the saved one |
| CloudSession.BootstrapIsSavedExactlyWhen | engraphis/cloud_session.py:794-820 | which bootstrap answers are saved, with which organization, entitlement and compute URL |
| CloudSession.BootstrapStartsAFamily | engraphis/cloud_session.py:794-820 | a saved bootstrap answer is what every process that has not fenced it sends next, to the answer's URL and for its subject, whatever the environment holds |
| CloudSession.DenialKeepsTheFamily | engraphis/cloud_session.py:666-694 | a billing denial changes no later refresh decision |
| CloudSession.DecisionReadsTheFamilyOnly | engraphis/cloud_session.py:1103-1126 | the decision depends on the record only outside its entitlement |
| CloudSession.DenialClears | engraphis/cloud_session.py:666-694 | a denial clears access, features and status and nothing else of the record |
| CloudSession.DenialIsIdempotent | engraphis/cloud_session.py:666-694 | denying twice is denying once, and the result counts as denied |
| RotationProtocol.NoCredentialIsReplayed | engraphis/cloud_session.py:1098-1224 | over every interleaving, whatever writes fail and whoever dies: as long as no window closes with its spent credential still on disk and there is no environment bootstrap, a credential whose POST was consumed or may have been is never POSTed again by anyone |
| RotationProtocol.ReplayExactlyWhen | engraphis/cloud_session.py:741-752 | when no window strands its credential, with any environment, a spent credential is about to be sent again exactly when nothing is saved and the environment's credential is a spent one |
| RotationProtocol.SenderNeverReplays | engraphis/cloud_session.py:1132-1168 | whatever writes fail and whoever dies, the process that made a POST never sends that credential again |
| RotationProtocol.OnlyTheHolderMoves | engraphis/cloud_session.py:221-313 | a step inside the critical section is one of the lock holder |
| RotationProtocol.ActorIsSound | engraphis/cloud_session.py:1098-1224 | every step leaves the acting process with a call whose credential was issued, is not fenced by it and matches the record it loaded |
| RotationProtocol.DiskStaysUnspent | engraphis/cloud_session.py:1132-1224 | as long as no window strands its credential, the one on disk outside a window is never a spent one |
| Stranding.StrandsExactlyWhen | engraphis/cloud_session.py:1132-1224 | one step leaves a spent credential on disk, outside any window, exactly when it is a death or an unwritten retirement in a window whose credential is still there |
| Stranding.AnyUnfencedProcessReplays | engraphis/cloud_session.py:1098-1126 | once that has happened, every idle process that has not fenced the credential POSTs it again, without any further failure |
| Stranding.ReplayableExactlyWhen | engraphis/cloud_session.py:1098-1224 | after any run with any failures, a replay can follow without a further stranding exactly when a spent credential is on disk and no process in its window answers for it |
| Stranding.RunIsSafeExactlyWhen | engraphis/cloud_session.py:1098-1224 | a run is free of replays, in itself and in all such continuations of each of its states, exactly when no window strands its credential |
| SessionFamily.FamilyKeepsItsBinding | engraphis/cloud_session.py:764-781 | along every run of refreshes and denials of one family, every POST uses the saved control URL and the saved subject, whatever the environment holds |
| SessionFamily.AccessIsARun | engraphis/cloud_session.py:1046-1224 | what the class method computes for file, fence and POST is what the protocol's steps do |
| SessionFamily.DenialIsARun | engraphis/cloud_session.py:666-694 | what the class method for a billing denial does to the file is what the protocol's steps do |
| SessionFamily.BootstrapIsARun | engraphis/cloud_session.py:794-820 | the same for saving a bootstrap answer |
| SessionFamily.DeathInTheWindowReplays | engraphis/cloud_session.py:1127-1152 | a death between POST and save leads to a second POST of the spent credential |
| SessionFamily.LeftoverBootstrapReplays | engraphis/cloud_session.py:98-99 | with durable saves, retiring a later rotation brings back and re-sends a bootstrap credential left in the environment |
| SessionFamily.OneLetterIsPlain | engraphis/cloud_session.py:727-734 | credentials of the kind the two counterexamples use exist |
| ImportPlanner.Sorted | engraphis/obsidian_import.py:591 | sorting loses and adds no note |
| ImportPlanner.SortedIsOrdered | engraphis/obsidian_import.py:591 | notes are visited in the order of their case-folded paths |
| ImportPlanner.SortingIsStable | engraphis/obsidian_import.py:591 | notes whose paths differ only in case keep the order of the scan |
| ImportPlanner.FindNewest | engraphis/obsidian_import.py:660-665 | the newest row is the maximum by last-seen time, then id, and there is one unless there is no row |
| ImportPlanner.IndexByPath | engraphis/obsidian_import.py:567-576 | the index holds for every path exactly its rows, and the scanned paths are the notes', the rejected ones and those under unreadable directories |
| ImportPlanner.IndexByContent | engraphis/obsidian_import.py:579-588 | the index holds for every content exactly the vanished, non-conflicting rows with it |
| ImportPlanner.FindPathRow | engraphis/obsidian_import.py:592-603 | exact rows first, then active ones, then any row at the path |
| ImportPlanner.PlanNote | engraphis/obsidian_import.py:592-630 | the action, row and reason of one note given the rows already taken |
| ImportPlanner.MakePlan | engraphis/obsidian_import.py:563-637 | the plans of all notes in order, and exactly the vanished, unclaimed, active rows as missing |
| ImportPlanner.PathDecides | engraphis/obsidian_import.py:592-615 | a note with a row at its path is skipped exactly when a row of this importer with its content and not in conflict is there and the claimed row is current, and updated exactly when there is none and the claimed row is current; the claimed row is the latest recording the note, else the latest active one, else the latest one |
| ImportPlanner.ContentDecides | engraphis/obsidian_import.py:616-630 | a note with nothing at its path is renamed exactly when one vanished row with its content is free and current, new exactly when none is free, and in conflict otherwise |
| ImportPlanner.MissingExactlyWhen | engraphis/obsidian_import.py:631-636 | a row is missing exactly when the scan does not account for its path, no note took it over and it is not missing or in conflict already |
| ImportPlanner.EveryNoteIsPlannedOnce | engraphis/obsidian_import.py:591-630 | every note gets exactly one plan, in sorted order |
| ImportPlanner.ClaimsAreJustified | engraphis/obsidian_import.py:592-630 | a claimed row is at the note's own path, or has the note's content and a vanished path and was not taken |
| ImportPlanner.NoRowIsClaimedTwice | engraphis/obsidian_import.py:589-630 | no manifest row is claimed by two plans |
| ImportPlanner.ManifestIsPartitioned | engraphis/obsidian_import.py:605-636 | every row is claimed by one plan, missing, or preserved, and never two of these; a preserved row was seen or is out of play |
| ImportPlanner.SharedContentNeverMoves | engraphis/obsidian_import.py:616-630 | content shared by two vanished rows never yields a rename: neither row is claimed, and every note looking for it is ambiguous |
| ImportPlanner.UniqueContentMovesToTheFirst | engraphis/obsidian_import.py:616-630 | a vanished row with unique content moves to the first note in order that looks for it; later ones are imported as new |
| UploadScan.ScanUpload | engraphis/obsidian_import.py:161-218 | the notes are exactly the accepted files up to the first limit, every file examined is accounted for once, and the scan is complete exactly when no limit stopped it |
| UploadScan.TheEndIsUnique | engraphis/obsidian_import.py:174-213 | where a scan stops is determined by the files |
| UploadScan.AcceptedPathsAreDistinct | engraphis/obsidian_import.py:190-194 | no two notes of an upload have paths that differ only in case |
| UploadScan.ScanIsWellFormed | engraphis/obsidian_import.py:174-215 | an upload scan gives the planner the distinct paths it relies on |
| ImportRevisions.ImportStore.CloseValidity | engraphis/core/store.py:6118-6165 | ends a live memory at the given time and refuses a time before its start |
| ImportRevisions.ImportStore.FindStart | engraphis/obsidian_import.py:781-801 | the start is the earliest one not before the plan's and after every predecessor's start |
| ImportRevisions.ImportStore.Apply | engraphis/obsidian_import.py:773-889 | one transaction: either the new revision, every live predecessor closed at its start and the manifest row updated, or nothing, when the row under the key belongs to another source |
| ImportRevisions.AdmittedExactlyWhen | engraphis/core/store.py:4515-4542 | along every run a transaction is admitted exactly when its key is new or the row there is the plan's own |
| ImportRevisions.PlanningIsSound | engraphis/obsidian_import.py:702-771 | planning from any row the manifest ever showed, storing such a row back after a skip, a refusal or a failure, being refused and abandoning keep the invariant of the run and every memory |
| ImportRevisions.StartIsUnique | engraphis/obsidian_import.py:781-801 | the start of a revision is determined by the store and the plan |
| ImportRevisions.CommittedRevisionIsLive | engraphis/obsidian_import.py:773-836 | after a commit the new memory is the only live revision of its subject |
| ImportRevisions.UndisturbedUpdate | engraphis/obsidian_import.py:749-836 | an update that commits right after it was planned starts at the importer's clock, or just after the revision it replaces if the clock is not past that; that revision ends there and nothing else changes |
| ImportRevisions.UndisturbedImport | engraphis/obsidian_import.py:749-836 | a new note under a free key that commits right after it was planned starts at the clock |
| ImportRevisions.StepKeepsTimeline | engraphis/obsidian_import.py:773-836 | every step keeps the intervals of each subject positive, disjoint and meeting their successors |
| ImportRevisions.EveryRunIsTemporallySound | engraphis/obsidian_import.py:702-889 | however many importers plan concurrently, from rows however old, and whatever their clocks say, this holds after every step, keys and live memories correspond one to one, and a transaction makes its memory the live one or changes nothing |
| ImportRevisions.KeyStaysTaken | engraphis/core/store.py:4515-4542 | once a key has a row, only plans for the source of that row are ever admitted under it |
| ImportRevisions.NewNoteIsRefused | engraphis/obsidian_import.py:859-889 | a note planned as new under a key that has a row is never imported |
| ImportRevisions.OneAtExactlyWhen | engraphis/obsidian_import.py:776-836 | a commit leaves one live memory at its path exactly when it found none of another source there |
| ImportRevisions.OneLivePerPathExactlyWhen | engraphis/obsidian_import.py:702-857 | over every run, a path has at most one live memory all along exactly when every commit there finds nothing of another source live |
| ImportRevisions.OneLivePerPathWithoutMoves | engraphis/obsidian_import.py:749-764 | as long as no note moves and none is kept beside a diverged one, every path has at most one live memory, however many importers race |
| ImportRevisions.MoveSharesAPath | engraphis/obsidian_import.py:755-759 | one importer moves a note to a path where another imports a new one, and the path has two live memories |
| ImportRevisions.MoveBlocksThePath | engraphis/obsidian_import.py:755-759 | a new note at the path that a moved note left is refused, even with a single importer |
| ImportLinks.AddLinkAddsThePair | engraphis/core/store.py:8279-8420 | adding a link makes its pair live and leaves every other live pair |
| ImportLinks.BuildIndex | engraphis/obsidian_import.py:1055-1073 | the lookup tables answer exactly which notes a path or a name can mean |
| ImportLinks.Resolve | engraphis/obsidian_import.py:1148-1157 | the candidates of a reference: the first path any note answers to, else the notes of its stem |
| ImportLinks.CandidatesAre | engraphis/obsidian_import.py:1146-1157 | a reference names the notes answering to its first answered path, and the notes with its stem only when no path is answered |
| ImportLinks.StemLooksUp | engraphis/obsidian_import.py:1153-1157 | the stem is looked at exactly when no candidate path is answered |
| ImportLinks.LinkStore.Flush | engraphis/obsidian_import.py:1096-1105 | what the open batch wrote becomes durable |
| ImportLinks.LinkStore.LinkReference | engraphis/obsidian_import.py:1146-1197 | one candidate is linked and desired, anything else only marks pairs of the source for retirement |
| ImportLinks.LinkStore.RetireEach | engraphis/obsidian_import.py:1117-1132 | exactly the given pairs are retired |
| ImportLinks.LinkStore.Reconcile | engraphis/obsidian_import.py:1037-1218 | an incomplete manifest changes nothing; a complete run leaves the table with every supported link added and every unsupported live pair of a current source retired; an interrupted one leaves something between |
| ImportLinks.LinksAreDesired | engraphis/obsidian_import.py:1135-1197 | the links added one by one are, as pairs, exactly those some reference of some note supports |
| ImportLinks.OnlyLivePairsMatter | engraphis/obsidian_import.py:1110-1132 | the ambiguity and history bookkeeping never alters the result: marking pairs that are not live has no effect |
| ImportLinks.OutcomeIsReconciled | engraphis/obsidian_import.py:1198-1212 | the live pairs end as the desired ones plus the earlier ones touching no current source; exactly the unsupported pairs of current sources are retired |
| ImportLinks.LinkedExactlyWhen | engraphis/obsidian_import.py:1135-1212 | after a complete run a pair is linked exactly when some reference of a note names one note only and joins their two memories, or it was linked before and neither end is the memory of a scanned note |
| ImportLinks.PathReferenceLinks | engraphis/obsidian_import.py:1146-1197 | when exactly one note answers to the first answered path of a reference and has another memory, the two are linked |
| ImportLinks.AmbiguousPathLinksNothing | engraphis/obsidian_import.py:1158-1180 | when two notes answer there the reference stands for nothing, whatever its stem |
| ImportLinks.RelationIsKept | engraphis/obsidian_import.py:1187-1194 | the row of a link says whether the reference embeds its target |
| ImportLinks.OthersAreLeftAlone | engraphis/core/store.py:8279-8420 | a run only ends and adds rows, keeps one live row a pair and relation, and leaves the rows of other importers that no note asks for as they are |
| ImportLinks.DesiredPairsTouch | engraphis/obsidian_import.py:1187-1200 | a desired pair always touches a current source, so the two parts of the outcome are disjoint |
| ImportLinks.InterruptionIsForgotten | engraphis/obsidian_import.py:1090-1105 | wherever an earlier run was cancelled, failed or died, a complete run ends with the same links |
| ImportLinks.OrderIsIrrelevant | engraphis/obsidian_import.py:1135-1197 | the order in which the notes are visited is irrelevant |
| ImportLinks.RerunChangesNothing | engraphis/obsidian_import.py:1135-1212 | a rerun over an unchanged scan leaves every row of the table as it is |
| ImportPager.AddPage | engraphis/obsidian_import.py:1006-1017 | a page is merged into the list, an identity seen again replacing its earlier observation in place |
| ImportPager.AllSourceItems | engraphis/obsidian_import.py:972-1031 | for any reader: the merged observations of at most twenty pages of ten thousand rows, and whether the end was seen |
| ImportPager.NewestObservationWins | engraphis/obsidian_import.py:1006-1017 | whatever the reader shows, every identity is listed once, with its newest observation |
| ImportPager.PagesReadOn | engraphis/core/store.py:4454-4478 | from a cursor behind some rows the remaining pages read on without a gap or a repetition |
| ImportPager.StableReadingIsExact | engraphis/obsidian_import.py:1001-1028 | under one snapshot the result is exactly the first rows in order up to the bound, and "complete" exactly when the manifest does not exceed it |
| DatabaseMigration.PublishKeeps | engraphis/config.py:288-312 | every state a publication can be killed in keeps the legacy files and the commit marker |
| DatabaseMigration.UndoingTheLink | engraphis/config.py:288-312 | removing the destination undoes the link, before and after the stage is gone |
| DatabaseMigration.LeftoverIsRecognised | engraphis/config.py:333-357 | every leftover stage is the only name of its file or shares it with its own target |
| DatabaseMigration.FirstRunIsRecoverable | engraphis/config.py:512-530 | the state before the first run satisfies the invariant |
| DatabaseMigration.Machine.CleanStages | engraphis/config.py:333-357 | only leftover stages are removed; undisturbed, none of the target's remains |
| DatabaseMigration.Machine.Backup | engraphis/config.py:214-258 | a finished backup is a new, equal stage; an unfinished one leaves at most a torn stage |
| DatabaseMigration.Machine.Publish | engraphis/config.py:288-312 | link then unlink without ever replacing; a failure restores the names or, if the removal fails too, leaves the file published, and a kill leaves one of three states |
| DatabaseMigration.Machine.Rollback | engraphis/config.py:587-606 | whatever fails, the legacy files and the published contents stay intact; published files go last to first, and one is still there exactly when its removal did not succeed |
| DatabaseMigration.Machine.Prepare | engraphis/config.py:504-613 | under any script of failures and kills the legacy files and what is published stay intact; the pair is split exactly when the published primary cannot be removed and the rollback then removes the companion; undisturbed it completes the migration from every other state and refuses from that one; a run is interrupted exactly when it is killed, and then does nothing more |
| DatabaseMigration.Machine.CrashThenRecover | engraphis/config.py:504-613 | after any number of runs killed or failing anywhere, the next undisturbed run completes the migration unless one of them split the pair, and then it refuses |
| DatabaseMigration.Machine.SplitForGood | engraphis/config.py:530-534 | a first run whose primary fails its directory flush and its removal splits the pair, and no later run ever returns |
| TrustedEnv.ParseValue | engraphis/config.py:76-133 | the loops compute the value function: quoted with two escapes, or unquoted up to a comment, or a syntax error |
| TrustedEnv.QuotedReadsBack | engraphis/config.py:84-104 | every text, quoted and with its quotes and backslashes escaped, reads back as itself |
| TrustedEnv.SimpleValuesReadBack | engraphis/config.py:106-133 | a value without quotes, backslashes, hash signs and outer blanks reads back as it is |
| EnvSyntax.OuterBlanksAreDropped | engraphis/config.py:78 | blanks around a value mean nothing |
| EnvSyntax.CommentIsDropped | engraphis/config.py:125-132 | a hash after a blank starts a comment, which goes with the blanks before it |
| EnvSyntax.HashInsideStays | engraphis/config.py:125-132 | any other hash is part of the value |
| EnvSyntax.BackslashShields | engraphis/config.py:113-118 | what follows a backslash is data, a hash or a quote included |
| EnvSyntax.QuotesShelter | engraphis/config.py:119-125 | quotes behind a blank or an opening character shelter everything up to the closing one |
| EnvSyntax.QuoteInsideStays | engraphis/config.py:121-124 | a quote behind any other character is data |
| EnvSyntax.OpenQuoteIsRefused | engraphis/config.py:128-129 | such a quote that is never closed is an error |
| EnvSyntax.QuotedReadsExactlyWhen | engraphis/config.py:84-103 | a quoted value reads as what was quoted exactly when nothing, or blanks and a comment, follow; otherwise it is an error |
| EnvSyntax.UnclosedIsRefused | engraphis/config.py:104 | a leading quote that is never closed is an error |
| EnvSyntax.AssignmentMeans | engraphis/config.py:33-35 | blanks, perhaps `export` and blanks, a name, blanks and an equals sign make an assignment of the rest of the line |
| EnvSyntax.AssignmentsAreSuch | engraphis/config.py:141-149 | every line the parser takes for an assignment has that form |
| EnvSyntax.IgnoredExactlyWhen | engraphis/config.py:140-144 | a line is ignored exactly when it holds no NUL and is blank or a comment |
| TrustedEnv.ParseFile | engraphis/config.py:136-150 | a file parses to its last assignment of each key, or fails on its first bad line |
| TrustedEnv.TargetAgrees | engraphis/config.py:877-881 | on a line the parser accepts, the upsert's wider pattern finds the same key or none |
| TrustedEnv.SplitJoined | engraphis/config.py:892 | lines joined by the writer are split into themselves by the reader |
| TrustedEnv.NewLinesOverride | engraphis/config.py:874-890 | before trailing whitespace is dropped, the new lines mean the old settings overridden by the new ones, despite duplicates, export prefixes and comments |
| TrustedEnv.ReadTrimmed | engraphis/config.py:78-133 | when dropping trailing whitespace changes what a value reads as |
| TrustedEnv.TrimmingKeepsMeaning | engraphis/config.py:892 | dropping trailing whitespace keeps the meaning of a file exactly when its last text is no hazard |
| TrustedEnv.UpsertOverridesExactlyWhen | engraphis/config.py:834-892 | parsing the upserted file gives the old settings overridden by the new ones exactly when the last text is no hazard |
| TrustedEnv.PlainFilesAreOverridden | engraphis/config.py:834-892 | it always does when lines and values hold no whitespace but spaces and tabs |
| TrustedEnv.NoBreakSpaceIsLost | engraphis/config.py:892 | an upsert that sets nothing still changes a value ending in a no-break space |
| RepeatedUpsert.UpsertTwice | engraphis/config.py:874-892 | when every further line of each value assigns its own key again, upserting twice writes the same file as upserting once |
| RepeatedUpsert.UpsertTwiceExactlyWhen | engraphis/config.py:834-892 | for every accepted update, that holds for all files exactly under this condition |
| RepeatedUpsert.LinesAreStable | engraphis/config.py:847-849 | values without any line separator meet it |
| RepeatedUpsert.SplitOfText | engraphis/config.py:874 | a written text is read back as its pieces, followed by the lines behind it |
| TrustedEnv.SeparatorAddsASetting | engraphis/config.py:847-849 | a value with any line separator but the two the writer looks for is accepted, and what follows the separator is read as a setting of its own |
| TrustedEnv.CleanValues | engraphis/config.py:843-851 | the first bad name or multi-line value is reported; otherwise a later value of a name replaces an earlier one in place |
| EnvSyntax.ProblemIs | engraphis/config.py:843-850 | a setting is refused for its trimmed name first, then for a line feed or carriage return in its value |
| EnvSyntax.ProblemIsTheFirst | engraphis/config.py:843-851 | the first setting with a problem decides |
| EnvSyntax.NoneHasAProblem | engraphis/config.py:843-851 | when the settings are accepted none of them has a problem |
| EnvSyntax.LastValueIsWritten | engraphis/config.py:851 | of several values of a name the last is written |
| EnvSyntax.NamesAreWrittenOnce | engraphis/config.py:843-851 | each name is written once |
| EnvSyntax.NameCameFrom | engraphis/config.py:843-851 | no name is written that no setting has |
| TrustedEnv.Upsert | engraphis/config.py:874-892 | the loops write the first assignment of each key anew, drop its repetitions and append what was missing |
| TrustedEnv.Persist | engraphis/config.py:834-893 | the text to publish, or the error; nothing the bounded reader could not load is published |
| ResponseBudget.Reducer.Measure | engraphis/mcp_server.py:272-295 | measuring refreshes the accounting of the current payload, is stable, and counts the payload that carries it |
| ResponseBudget.ReportedTotalIsExact | engraphis/mcp_server.py:287-295 | if every number is one token, the reported total is the size of the payload that reports it |
| ResponseBudget.RefreshBeforeChange | engraphis/mcp_server.py:272-295 | measuring along the way leaves no trace in the result |
| ResponseBudget.Reducer.FitText | engraphis/mcp_server.py:326-381 | the bisection stops where the text fits and one character more does not; an empty text or one that fits already is untouched |
| ResponseBudget.EdgeIsLongestFit | engraphis/mcp_server.py:366-381 | under a measure monotone in the prefix this is the text a linear scan keeps |
| ResponseBudget.Reducer.FitAnswer | engraphis/mcp_server.py:339-364 | a grounded answer is cut behind the last cited marker that fits, and otherwise becomes an abstention |
| ResponseBudget.Reducer.EndWithCitation | engraphis/mcp_server.py:421-439 | a grounded answer that fits ends with a citation marker or becomes an abstention |
| ResponseBudget.FindMarkAtEnd | engraphis/mcp_server.py:424-425 | the search finds a marker at the end exactly when there is one |
| ResponseBudget.CitedExactlyWhen | engraphis/mcp_server.py:450-455 | a text cites exactly the numbers that stand in it between brackets |
| ResponseBudget.Reducer.OmitContext | engraphis/mcp_server.py:387-402 | an over-budget context goes as a whole, with its bindings and its evidence counts |
| ResponseBudget.Reducer.DropBindings | engraphis/mcp_server.py:297-309 | without a context no record of the three lists keeps an exact-value binding |
| ResponseBudget.Reducer.RemoveTrailing | engraphis/mcp_server.py:444-466 | the last record goes that no grounded answer cites, if there is one |
| ResponseBudget.Reducer.RemoveRecords | engraphis/mcp_server.py:468-478 | records go from the end on, sparing the cited ones, until the payload fits or none is left |
| ResponseBudget.ApplyBudget | engraphis/mcp_server.py:256-490 | a payload within budget is only accounted for; otherwise the result is within the budget or empty because not even the envelope fits, and short of the envelope it is the payload with texts cut, the context possibly omitted and only uncited records removed, each stage going only as far as the budget asks for |
| ResponseBudget.ClearedOnlyWhenBare | engraphis/mcp_server.py:468-490 | the payload is given up for its accounting or for nothing only if it is over budget even without memories and with no other record than those a grounded answer cites |
| ResponseBudget.StopsWhenItFits | engraphis/mcp_server.py:404-478 | from the first stage on that fits nothing more is taken, but that a grounded answer is ended with a citation |
| ResponseBudget.BodiesGoFromTheEnd | engraphis/mcp_server.py:404-419 | bodies are cut from the last one on: earlier ones are as they were, later ones empty, and with one body less cut the payload was over budget |
| ResponseBudget.RecordsGoOnlyOverBudget | engraphis/mcp_server.py:444-478 | a list loses its uncited records from some position on, and with the record at that position the payload was over budget |
| ResponseBudget.ContextGoesFirst | engraphis/mcp_server.py:383-402 | over budget the context always goes |
| ResponseBudget.OmissionKeepsTheRest | engraphis/mcp_server.py:387-402 | with the context only the accounting and the bindings change |
| ResponseBudget.FlagsAreHonest | engraphis/mcp_server.py:358-364 | a payload that is returned keeps its flags or abstains openly: an empty answer, not grounded and marked as abstained |
| ResponseBudget.BaseKeepsTheRest | engraphis/mcp_server.py:262-314 | before the budget is looked at only the accounting and bindings without a context change |
| ResponseBudget.GroundedAnswerKeepsItsEvidence | engraphis/mcp_server.py:421-478 | if an over-budget grounded answer survives, it is a prefix that ends with a citation, and every source or citation record it cites is still there |
| ResponseBudget.ContextIsWholeOrGone | engraphis/mcp_server.py:297-311 | the context is returned whole or not at all, and no binding outlives it |
| ResponseBudget.EvidenceIsConserved | engraphis/mcp_server.py:266-286 | packed and omitted evidence always add up to the original candidates, and the saving is that of the context that is there |
| ResponseBudget.AliasesAgree | engraphis/mcp_server.py:272-286 | the aliases of the savings say what the fields say, and the ratio is the saved share |
| ResponseBudget.OmissionSavesEverything | engraphis/mcp_server.py:390-401 | under a foreign tokenizer an omitted context counts as saved as a whole, with no evidence packed |
| CapabilityRegistry.Registry.Prune | engraphis/mcp_server.py:3502-3510 | exactly the expired entries go, the order stays |
| CapabilityRegistry.Registry.Issue | engraphis/mcp_server.py:3513-3528 | expired entries go, the oldest make room, and the entry is written in place or at the end |
| CapabilityRegistry.Registry.Look | engraphis/mcp_server.py:3727-3754 | the first locked section of a resolution and what it removes |
| CapabilityRegistry.Registry.Confirm | engraphis/mcp_server.py:3759-3769 | the second locked section: success only for the very same entry, within its lifetime |
| CapabilityRegistry.LooksExactlyWhen | engraphis/mcp_server.py:3727-3754 | a resolution goes on exactly with an entry under its name that is at most 900 seconds old, with the digest asked for and still current; an older entry is dropped and nothing else changes |
| CapabilityRegistry.ConfirmsExactlyWhen | engraphis/mcp_server.py:3759-3769 | it succeeds exactly when that very entry is still there and at most 900 seconds old |
| CapabilityRegistry.IssuedResolves | engraphis/mcp_server.py:3513-3769 | a capability that was just issued resolves for 900 seconds if nothing else touches the table |
| CapabilityRegistry.EveryRunIsSound | engraphis/mcp_server.py:3502-3528 | over every interleaving the table stays within its cap with distinct names, and holds only what was issued under that name |
| CapabilityRegistry.ResolvesExactlyWhen | engraphis/mcp_server.py:3755-3769 | a resolution succeeds exactly when the callback agrees and the entry it started from is still in the table and in its lifetime |
| CapabilityRegistry.ResolvedWasIssuedRecently | engraphis/mcp_server.py:3727-3769 | whatever interleaves with the callback, only an action and digest issued under the name asked for, no longer than the lifetime before, is resolved |
| CapabilityRegistry.ReissueKeepsItsPlace | engraphis/mcp_server.py:3522-3527 | issuing a live name again renews its lifetime but not its place, and in a full table drops the oldest row all the same |
| CapabilityRegistry.EvictsExactlyWhen | engraphis/mcp_server.py:3521-3527 | issuing costs another live name exactly when the swept table is full and that name is its oldest, whether the issued name was there or not; if it was, the table ends one short |
| CapabilityRegistry.EvictionIsByLastUseExactlyWhen | engraphis/mcp_server.py:3513-3528 | over every interleaving, rows stand in the order of their last use all along exactly when no step issues a name that is in the table and not its newest |
| CapabilityRegistry.TableIsBoundedByNames | engraphis/mcp_server.py:3513-3528 | no run holds more rows than the process has capability names |
| CapabilityRegistry.DropsExactlyWhen | engraphis/mcp_server.py:3522-3523 | some run drops another live name exactly when there are at least as many names as rows allowed, and then even issuing a name that is already there does |
| RateLimiter.Limiter.Prune | engraphis/app.py:377-383 | the sweep forgets exactly the clients whose last entry is older than the window |
| RateLimiter.Limiter.Request | engraphis/app.py:371-393 | one request: sweep, drop old entries, admit below the limit or refuse with the advertised wait |
| RateLimiter.AdmittedExactlyWhen | engraphis/app.py:384-393 | in every run a request is admitted exactly when fewer than the limit of its client's admissions lie in the window that ends with it |
| RateLimiter.NoWindowExceedsTheLimit | engraphis/app.py:384-393 | no window of the configured length, wherever it ends, holds more admissions than the limit |
| RateLimiter.SweepsNeverMatter | engraphis/app.py:377-383 | the sweeps never change a decision |
| RateLimiter.RetryAfterIsEnough | engraphis/app.py:388-391 | waiting the advertised time with no admission in between guarantees admission |
| RateLimiter.RetryAfterIsTight | engraphis/app.py:388-391 | a request more than a second before the advertised time is still refused |
| ManagedSnapshot.ProjectionIsExact | engraphis/cloud_features.py:369-380 | the projected size exceeds the real encoding by exactly the slack of the header values |
| ManagedSnapshot.ProjectionBounds | engraphis/cloud_features.py:369-380 | up to the widest header values the encoding stays below the projection |
| ManagedSnapshot.AddRow | engraphis/cloud_features.py:381-430 | one row: skipped, held back, refused for its text, refused for the bytes, or added with its projected size |
| ManagedSnapshot.Assemble | engraphis/cloud_features.py:367-430 | assembling succeeds exactly when all open rows fit the text and byte limits, and then holds exactly those and the count of the rest |
| ManagedSnapshot.SnapshotStore.Reserve | engraphis/cloud_features.py:251-287 | a reserved generation is above the previous one and within 63 bits; which error otherwise, and then nothing is stored |
| ManagedSnapshot.SnapshotStore.Build | engraphis/cloud_features.py:296-440 | a snapshot is built exactly when the workspace is known, approved and uploadable and a generation is left; a failed build leaves the generation as it was and reports its first problem; no memory leaves that column or metadata hold back |
| ManagedSnapshot.SnapshotsFit | engraphis/cloud_features.py:493-497 | every snapshot that is built passes the later size check, with its policy revision within 63 bits |
| ManagedSnapshot.UploadsFitExactlyWhen | engraphis/cloud_features.py:493-497 | every accepted list of rows passes the later size check exactly when the policy revision is below a limit given by the digits of the generation and the held-back count, which no 63-bit revision reaches |
| ManagedSnapshot.WideRevisionOverflows | engraphis/cloud_features.py:344-346 | with 168 notes and a generation of 16 digits, a revision of 29 digits makes an accepted snapshot too large, and no smaller revision does |
| ManagedSnapshot.OnlyOpenRowsLeave | engraphis/cloud_features.py:386-394 | a row is in the snapshot exactly when it may be prompted, its column says normal or sensitive and its metadata one of these or nothing; it leaves as sensitive when either says so |
| ManagedSnapshot.RowsLeaveInOrder | engraphis/cloud_features.py:381-430 | the rows leave in their order |
| ManagedSnapshot.HeldBackRowsAreCounted | engraphis/cloud_features.py:390-392 | the count is that of the eligible rows whose column says neither normal nor sensitive or whose metadata says anything else than these or nothing |
| ManagedSnapshot.UploadableExactlyWhen | engraphis/cloud_features.py:369-430 | which rows can be uploaded: at most 100,000, with texts and titles of at most 100,000 and 500 characters, and encodings within 16 MiB less the widest header |
| ManagedSnapshot.RowsAreAccounted | engraphis/cloud_features.py:386-392 | every eligible row is in the snapshot or counted as held back |
| ManagedSnapshot.GenerationsIncrease | engraphis/cloud_features.py:251-287 | along any history of builds the generations of the snapshots increase strictly |
| PrivateState.SameStampSameContent | engraphis/private_state.py:92-98 | between two looks at the same version the content did not change |
| PrivateState.Open | engraphis/private_state.py:128-155 | the inspection and opening answer at once or leave a safe regular file open |
| PrivateState.ReadChunks | engraphis/private_state.py:156-163 | if the version is still the opened one, the chunks are the whole content, or the file exceeds the bound |
| PrivateState.Verify | engraphis/private_state.py:164-167 | the closing checks pass only if file and path still show the opened version |
| PrivateState.ReadPrivate | engraphis/private_state.py:113-174 | a text is the whole content of the file the path names when the call ends, despite writers in between; undisturbed, a safe file within the bound is read |
| ClientIdentity.EveryRunIsSound | engraphis/private_state.py:289-384 | in every reachable state only the winner's temporary name is spare, nobody writes two files, and whoever has an identity took it from one of the files that had the path |
| ClientIdentity.ChangesExactlyWhen | engraphis/private_state.py:318-333 | a step changes a published identity exactly when it is a replacement by a process with another pair |
| ClientIdentity.OnlyFailedRereadsReplace | engraphis/device_connect.py:266-277 | only a process that lost the link and whose re-read failed ever gets to replace the file |
| ClientIdentity.NoFailedRereadNoSplit | engraphis/device_connect.py:235-285 | while no such re-read fails, with any other fault and any death, all who return have the same pair |
| ClientIdentity.EveryoneAgrees | engraphis/device_connect.py:235-285 | along every run in which no replacement brings another pair, all who return have the published one |
| ClientIdentity.PublishedStays | engraphis/private_state.py:318-333 | along such a run a published pair survives |
| ClientIdentity.EveryoneAgreesExactlyWhen | engraphis/device_connect.py:235-285 | over all runs, all who return have the same pair exactly when no replacement falls between two of them taking theirs |
| ClientIdentity.AloneItReturns | engraphis/device_connect.py:253-285 | a process nobody disturbs returns the saved identity, or publishes its own |
| ClientIdentity.DeadWinnerBlocks | engraphis/private_state.py:372-384 | while the temporary name of a winner that is gone exists, every reader raises |
| ClientIdentity.BlockedExactlyWhen | engraphis/private_state.py:372-384 | over all runs, nobody has returned or ever will exactly when the winner died before removing its temporary name, or could not remove it |
| ClientIdentity.FaultSplitsTheIdentity | engraphis/device_connect.py:268-277 | one passing fault on the re-read, after the winner returned or while its temporary name is still there, gives two processes different identities |
| ClientIdentity.UntoldIdentityIsReplaced | engraphis/device_connect.py:268-277 | the identity of a winner that died before returning is replaced, and all who return still agree |

## Left out

- HTTP, TLS, sockets, DNS, SQLite, OS locks, fsync and file permissions: they appear as step outcomes, atomic transactions, a mutex and an abstract file map.
- The direct access-token path of `access_for_workspace`, its unlocked preflight reads and the deadline of the lock: a refusal by deadline is one outcome of `Reach`.
- Text details of URLs and token subjects: a URL is an origin and a path, a subject is unset, named or unrecognised.
- Declared entitlements as a fixpoint: truncation can expose trailing spaces, so only the denial's idempotence is stated.
- Single use of browser sign-in codes in the dashboard: the used set is cleared at 1024 entries.
- The unlocked fast path of the migration and its return value when no legacy database exists: the model covers runs serialized by the lock that find the legacy primary.
- `_apply_plan` outside its transaction: policy checks, metadata trimming, embeddings and job bookkeeping, but for the reference of a job item to its source.
- The state column of a manifest row (imported, conflict, error) and the graph state retired with a closed revision.
- `_note_references` and `_reference_paths`: a reference arrives with its resolved, case-folded candidate paths.
- Reconciliation warnings: which references were ambiguous or unresolved is not reported by the model.
- Graph layers of links beyond semantic or not, and imported closed link intervals in `add_link`.
- ImportPlanner.MakePlan: manifest rows and candidate lists are sets, so list order among rows with equal times and ids is not modelled; source keys and ids are unique in the store.
- ImportRevisions: times are integer microseconds, and `close_validity` is modelled for the importer's own calls.
- ResponseBudget.ApplyBudget: the serializer and token counter are parameters, markers use ASCII digits, and records that are not objects are left out.
- TrustedEnv: file permissions, the atomic replacement and reading the process environment; keys and values are sequences of characters.
- CapabilityRegistry: the keyed digest is a parameter, and specifications do not change while the process runs.
- ManagedSnapshot: row contents are given by their lengths; prompt eligibility is a flag of the row.
- PrivateState.ReadPrivate: UTF-8 decoding, ownership checks and the optional expected version.
- ClientIdentity: a saved identity holds both ids or none.
- Command guards, action ranking, contradiction heuristics, tool schemas, graph data, AI context and logging: tuned tables and presentation without a specification to prove against.
