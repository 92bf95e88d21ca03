# Desktop protocols, modelled and proved

This project models the protocols of the Desktop main process and a few
algorithms beside it, and proves what they promise. It checks with
`dafny verify dfyconfig.toml`.

- **Workspace transfer between two Servers** (`Transfer*.dfy`). A call is a
  sequence of requests and writes, each of which may be answered, refused,
  answered too late or cut off by the end of the process. `TransferPlan` names
  one answer for every await, so a theorem about every plan is a theorem about
  every interleaving. `TransferServers` is the source ledger and the destination,
  `TransferDecisions` the preflight, `TransferTrace` the rules a call's events
  obey, `TransferState` the invariants of what is stored, `TransferHistory` what
  a call makes of both Servers and what histories keep, and the class
  `TransferDesktop.Desktop` executes calls, preflights and whole histories.
  `TransferReceipts` and `TransferBundle` (with `Base64` and `WorkspacePaths`)
  cover receipts, operation ids and the bundle check.
- **Selecting a target** (`Activation.dfy`): concurrent activations with a
  generation counter and a commit chain; every interleaving of atomic sections.
- **Importing a Share link** (`ShareImport.dfy`) and the **canonical JSON** that
  gets signed (`JsonNumbers`, `JsonStrings`, `JsonText`, `CanonicalJson`).
- **Artifact content** (`Utf8`, `ArtifactFields`, `ArtifactBoundary`,
  `BoundedReader`).
- **Both sides of the renderer bridge** (`StrictJson`, `Sanitizers`) and the
  **event window** (`EventWindow`).
- **Two fixtures' algorithms**: the schema sampler with its JSON Pointer
  (`SchemaSampler`, `JsonPointer`) and the choice of Skill candidates
  (`CandidateChoice`).

Three predicates carry the assumptions of the transfer results. `Honest` says
that Servers say what is the case, say nothing, or fail, and that any answer may
be lost or arrive broken. `Smooth` says that every
request of a call succeeds and every write reaches the disk. `Consistent` is the
invariant of memory, disk and both Servers between calls; it holds before the
first call and after every honest one. The order rules on a call's events and the
truth of its failure status need none of them: they hold for all Servers.

Where the original throws, the model returns an error with the original's code
or ends the step. Methods follow the original's assignments and are proved
against functions; the functions' properties are lemmas. Where a check and what
is said of it would rest on one and the same small function, a lemma also says
literally what that function accepts or prints.

## Model

| member | source | states |
|---|---|---|
| `TransferDesktop.Desktop.RunHistory` | apps/desktop/src/main.ts:3364-4213 | Any sequence of calls, preflights and restarts, each failing or stopping at any await, as a sequence of snapshots of both copies, both Servers and the trace of the last call: consecutive snapshots are related by what one step does, and after a call that cut over every later step keeps the transfer resumable and the destination as it is, never imports or rolls back, and concludes when all its requests succeed. |
| `TransferDesktop.Desktop.Take` | apps/desktop/src/main.ts:3812-3823 | One step: a plan that is not honest at its moment changes nothing; a call gets as far as its plan says, moves both Servers accordingly and becomes resumable exactly by a durable cutover; a preflight changes no Server; a restart falls back to the disk. |
| `TransferDesktop.Desktop.Execute` | apps/desktop/src/main.ts:3825-4213 | One whole call, for every plan of answers: its trace is lawful; how far it gets (export, import, verification, cutover, receipt, complete) and what it makes of both Servers is determined by the plan, and every change goes back to a request in the trace; it reaches its guarded part exactly when status, identity and preflight allow; it stops only where the plan stops it; an open import is noted in both copies of the checkpoint however the call ends; a failed call leaves a truthful checkpoint and rolls back exactly when it had asked for an export, nothing was cut over and no import is open; the registry changes exactly by a cutover, and then only as one switches (`CutoverSwitches`); with honest Servers it becomes resumable exactly by a cutover, and a smooth call finishes whatever is resumable or can start or start again. |
| `TransferHistory.CutoverIsForGood` | apps/desktop/src/main.ts:3930-4213 | In every history, whatever fails or stops after a durable cutover: every later step keeps what the cutover has secured. |
| `TransferHistory.RegistryThroughout` | apps/desktop/src/main.ts:3079-3101 | In every history both copies hold the first registry until a call cuts over, and from then on the first registry switched, however often the cutover is committed again. |
| `TransferHistory.OneWorkspaceAtMost` | apps/desktop/src/main.ts:4038-4065 | In every history the destination, once it holds the Workspace, holds this same one for ever, however often the import is sent. |
| `TransferHistory.OpenImportIsFinished` | apps/desktop/src/main.ts:4055-4077 | In every history: a call that sent its import and never learned the outcome, whether it failed or the process stopped, is finished by the next call, after any restarts, if all requests of that one succeed: with the Workspace that the destination holds by then, and a new one only if it holds none. |
| `TransferHistory.SmoothCallConcludesExactly` | apps/desktop/src/main.ts:3403-3413 | In every history a call whose requests all succeed concludes the transfer exactly if it has cut over already, or both Servers let it start or start again and a Workspace that is there already is accounted for by a `restoring` checkpoint. |
| `TransferHistory.RestoredNeedsNote` | apps/desktop/src/main.ts:3403-3408 | With the row exported and the Workspace restored, such a call concludes exactly if the transfer has cut over or the checkpoint is `restoring` and not archived. |
| `TransferHistory.LostNoteIsForGood` | apps/desktop/src/main.ts:3679-3692 | Before the cutover, every preflight that is recorded over a `restoring` checkpoint while the destination holds the Workspace (one that passes on its own, one that stops, be it only because the ledger did not answer, or that of a call which then sends no import) ends the transfer: no later step of any history concludes it. |
| `TransferHistory.StuckForGood` | apps/desktop/src/main.ts:3619-3627 | Without that checkpoint in either copy every call stops at its preflight, whatever happens, and neither Server changes again. |
| `TransferHistory.FittedThroughout` | apps/desktop/src/main.ts:4038-4077 | In every history what the destination holds was restored from the very bundle that the source still records. |
| `TransferHistory.MovesAreAccounted` | apps/desktop/src/main.ts:3994-4175 | Every change of a Server goes back to a request in the trace: a restored Workspace to an import, a rolled back, imported or committed row to the request that causes it. |
| `TransferHistory.FailureIsAccounted` | apps/desktop/src/main.ts:4159-4212 | A failed call whose import is open leaves a transfer that can start again; and the source is rolled back although the destination holds an unreported Workspace exactly when that Workspace stood there before and this call, which had asked for an export, imported nothing. |
| `TransferDesktop.RollbackAfterOpenImport` | apps/desktop/src/main.ts:3883-4175 | That this happens: a first call whose import was applied but never answered, and a second one whose begin request fails. |
| `TransferDesktop.BlockedByPreflight` | apps/desktop/src/main.ts:3679-3692 | That this happens without any failure after the first call: one preflight that finds everything in order. |
| `TransferHistory.ClosingKeepsSecured` | apps/desktop/src/main.ts:4123-4140 | An honest source takes receipt and complete whatever answers get lost, and commits when both are answered. |
| `TransferDesktop.MoveWorkspace` | apps/desktop/src/main.ts:3825-4158 | From nothing but two listed connections, one call whose requests all succeed ends with the source archived, the registry switched (destination listed and superseded by nothing, source superseded by it, every other target as it was, the active target moved along), and both copies saying so. |
| `TransferDesktop.Desktop.Preflight` | apps/desktop/src/main.ts:3364-3695 | The preflight as its own call passes exactly when status, identity and verdict allow, never makes a resumable transfer unresumable, passes when everything it reads is in order, and what it records deletes the note of an open import. |
| `TransferDesktop.Desktop.Attempt` | apps/desktop/src/main.ts:3888-4212 | The guarded part together with its failure handler: what it makes of both Servers, a truthful checkpoint and the exact condition for a rollback. |
| `TransferDesktop.Desktop.GuardedPart` | apps/desktop/src/main.ts:3888-4158 | The three ways through a call; what each of them leaves on both Servers, in memory and on disk. |
| `TransferDesktop.Desktop.Start` | apps/desktop/src/main.ts:3825-3887 | A call gets to its first request exactly when status, identity and preflight allow; before it nothing is sent and no Server changes, and with truthful Servers the right branch is taken with a genuine receipt. |
| `TransferDesktop.Desktop.ReadStatus` | apps/desktop/src/main.ts:3829-3851 | Goes on exactly when the source is listed, the ledger answers and the identity matches; a replay with another identity changes nothing. |
| `TransferDesktop.Desktop.Decide` | apps/desktop/src/main.ts:3852-3874 | The choice between resuming and exporting again, made from the ledger and the checkpoint, is the one the stored state calls for. |
| `TransferDesktop.Desktop.RunPreflight` | apps/desktop/src/main.ts:3364-3695 | What passes leaves the source usable, a call that resumes has a read-only source, and a resumable transfer is neither archived early nor stripped of its receipt. |
| `TransferDesktop.Desktop.VerdictIsSound` | apps/desktop/src/main.ts:3396-3654 | With truthful Servers the verdict never costs a receipt, passes only a startable or resumable transfer, and passes when everything is in order. |
| `TransferDesktop.Desktop.ApplyVerdict` | apps/desktop/src/main.ts:2723-2754 | Stopping safely or recording a fresh preflight changes one checkpoint and keeps both copies consistent. |
| `TransferDesktop.Desktop.WriteCheckpoint` | apps/desktop/src/main.ts:2717-2721 | Memory is written first, then the disk; a failed save leaves the disk, a stopped process falls back to what its disk holds. |
| `TransferDesktop.Desktop.CommitCutover` | apps/desktop/src/main.ts:3079-3101 | The switched registry is saved before any process state changes, so a failed save leaves both as they were; a committed one keeps connections and all other targets and moves the active target along. |
| `TransferDesktop.Desktop.ExportBundle` | apps/desktop/src/main.ts:3994-4037 | Begin, bundle and the two progress checkpoints keep every genuine receipt, and succeed exactly when all four do; the bundle read is then the one the source has exported. |
| `TransferDesktop.Desktop.ImportWithRetry` | apps/desktop/src/main.ts:4055-4065 | The identical import is sent a second time exactly when the first attempt had no answer or a status from 500 to 599; any other error status of the first attempt settles that nothing was imported. |
| `TransferDesktop.Desktop.TryImport` | apps/desktop/src/main.ts:4055-4061 | Only the message of the error is looked at, and it tells an open outcome from a refusal. |
| `TransferDesktop.Desktop.ImportAndVerify` | apps/desktop/src/main.ts:4055-4077 | The outcome stays unknown until Workspace id, manifest and receipt all fit; a success that confirms what the destination holds passes all three. |
| `TransferDesktop.Desktop.Restore` | apps/desktop/src/main.ts:4038-4077 | With honest Servers the receipt taken is the one of the Workspace that the destination holds. |
| `TransferDesktop.Desktop.Land` | apps/desktop/src/main.ts:4038-4124 | From the bundle in hand to the switched registry: how far this gets is told by the plan; until the import is settled both copies note it. |
| `TransferDesktop.Desktop.SwitchRegistry` | apps/desktop/src/main.ts:4096-4124 | From the durable registry cutover on, memory and disk both carry the marker and the receipt that finish the transfer. |
| `TransferDesktop.Desktop.CloseSource` | apps/desktop/src/main.ts:4123-4140 | Receipt and complete are sent after the cutover only, in that order, and complete only after the receipt was answered; success means the source is committed. |
| `TransferDesktop.Desktop.FreshPath` | apps/desktop/src/main.ts:3994-4158 | A transfer from its beginning either has not cut over and stays startable, or is secured; success concludes it. |
| `TransferDesktop.Desktop.CloseResumed` | apps/desktop/src/main.ts:3948-3991 | The end of a resumed call: receipt and complete with the kept receipt, then the final checkpoint; success concludes. |
| `TransferDesktop.Desktop.ResumePath` | apps/desktop/src/main.ts:3930-3993 | Resuming commits the cutover again and closes the source with the kept receipt; nothing is imported. |
| `TransferDesktop.Desktop.CommittedPath` | apps/desktop/src/main.ts:3892-3929 | With the source committed only the local cutover is left; nothing is sent. |
| `TransferDesktop.Desktop.CommittedIsFinal` | apps/desktop/src/main.ts:3909-3931 | The last checkpoint of a committed transfer: archived, restored, nothing to clean up, the receipt as before, and the hash the Server holds. |
| `TransferDesktop.Desktop.HandleFailure` | apps/desktop/src/main.ts:4159-4212 | Rolls back exactly where the guard allows and then records the given checkpoint; a secured transfer stays secured. |
| `TransferDesktop.Desktop.DescribeFailure` | apps/desktop/src/main.ts:4176-4210 | The checkpoint to record is truthful and carries receipt, bundle hash and the code of the first error, or that the import is open. |
| `TransferDesktop.Desktop.FailureIsTruthful` | apps/desktop/src/main.ts:4176-4210 | The recorded status: `restoring` iff the import outcome is open, never together with the cutover; archived iff complete was acknowledged or the ledger said so; cleanup required iff the destination may hold an import without cutover. |
| `TransferTrace.RollbackIsLastAndAlone` | apps/desktop/src/main.ts:4159-4175 | In every lawful trace a rollback is the last event and the only rollback, without cutover, receipt or complete request before it, with no import open and no committed source. |
| `TransferTrace.CompleteIsEarned` | apps/desktop/src/main.ts:3930-4140 | A complete request follows the durable cutover, the receipt request and its acknowledgement; if the call imported, manifest and both receipt hashes equalled the exported hash. |
| `TransferTrace.FactsHaveEvents` | apps/desktop/src/main.ts:3930-4175 | The condensed facts of a lawful trace are exactly what its events say; with them no receipt is sent before the cutover and no rollback with an import open. |
| `TransferTrace.VerificationBefore` | apps/desktop/src/main.ts:4066-4077 | A verified import has its verification against the accepted bundle earlier in the trace. |
| `TransferDecisions.UnknownExactlyForServerErrors` | apps/desktop/src/main.ts:3274-3278 | The text test on the error message reads a status as "outcome unknown" exactly from 500 to 599, and a missing answer always. |
| `TransferDecisions.ResumeMeetsReadOnlySource` | apps/desktop/src/main.ts:3553-3565 | A call that passes the preflight and resumes has a read-only source, so its guard never skips receipt and complete. |
| `TransferDecisions.PassesExactly` | apps/desktop/src/main.ts:3364-3654 | The preflight passes exactly if, whatever the order of its checks: no replay, both sides listed and healthy, an owner asking for this Workspace, a ledger that neither failed nor contradicts itself, a source state that fits it, one schema, and a destination that exists if it must and only if it may. |
| `TransferDecisions.StopsSpeakTruly` | apps/desktop/src/main.ts:2723-2754 | A safe stop records the source as archived only if ledger, source or checkpoint says so. |
| `TransferDecisions.StopsTellRestored` | apps/desktop/src/main.ts:3450-3560 | Only an imported or committed row lets a stop record whether the destination is restored. |
| `TransferDecisions.PassingIsUsable` | apps/desktop/src/main.ts:3150-3170 | What passes the preflight can still use a superseded source, also after the preflight is recorded. |
| `TransferDecisions.RecordingIsFresh` | apps/desktop/src/main.ts:3676-3692 | Only a call that neither resumes nor finds the source committed records a preflight. |
| `TransferServers.RequestsKeepSource` | packages/workspace-server/src/schema.ts:11293-11590 | Every request keeps the ledger well formed, and a committed row is final. |
| `TransferServers.LedgerAcceptsExactly` | packages/workspace-server/src/schema.ts:11293-11590 | Which requests a well-formed ledger accepts, and the row and Workspace state each leaves. |
| `TransferServers.RefusalsChangeNothing` | packages/workspace-server/src/schema.ts:11293-11590 | A refused request leaves the Server as it was. |
| `TransferServers.RequestsAreIdempotent` | packages/workspace-server/src/workspace-completion-bundle-v4.ts:337-447 | An accepted request that is sent again changes nothing and is accepted again. |
| `TransferState.ResumableMeansMarked` | apps/desktop/src/main.ts:3409-3413 | With truthful Servers the resume condition holds exactly for a transfer past its cutover that is not committed. |
| `TransferState.ResumeKeepsReceipt` | apps/desktop/src/main.ts:3857-3863 | The receipt of a consistent transfer survives its repair unchanged. |
| `TransferState.ResumablePassesPreflight` | apps/desktop/src/main.ts:3364-3695 | In good order the preflight lets a resumable transfer through without touching it. |
| `TransferState.VerdictKeepsResumable` | apps/desktop/src/main.ts:3414-3654 | No verdict on a resumable transfer marks it archived early or forgets its receipt. |
| `TransferState.PassingIsFreshStart` | apps/desktop/src/main.ts:3425-3450 | What passes without a cutover was neither rolled back nor failed nor handed over. |
| `TransferState.WriteKeeps` | apps/desktop/src/main.ts:2717-2721 | Recording a checkpoint with a genuine receipt keeps a copy consistent on either side of the cutover. |
| `TransferState.CutoverMarks` | apps/desktop/src/workspace-connections.ts:305-382 | The cutover succeeds on a valid registry and marks the source as superseded by the destination. |
| `TransferState.CutoverSwitches` | apps/desktop/src/workspace-connections.ts:305-382 | The cutover succeeds exactly when the two sides differ, both connections and the source are listed. It keeps the connections and every other target, lists the destination and nothing else, supersedes the source by it and nothing by the destination, and moves the active target if that was the source. |
| `TransferState.SwitchingIsStable` | apps/desktop/src/workspace-connections.ts:343-381 | A switched registry is determined by the first one, and switching again changes nothing. |
| `TransferState.ReceiptIsTaken` | packages/workspace-server/src/schema.ts:11520-11590 | The source takes the genuine receipt, however often it is sent. |
| `TransferState.CompleteIsTaken` | packages/workspace-server/src/schema.ts:11354-11377 | After the receipt, completing commits and archives the source. |
| `TransferState.RollbackKeeps` | packages/workspace-server/src/schema.ts:11293-11314 | A rollback never reaches a row that has a receipt. |
| `TransferReceipts.ReconcilingIsStable` | apps/desktop/src/main.ts:3791-3810 | Reconciling succeeds exactly for matching Workspaces and well-formed durable hashes, keeps identity and timestamp, and is idempotent. |
| `TransferReceipts.AgreeingReceiptIsKept` | apps/desktop/src/main.ts:3791-3810 | The repaired receipt is the same, with the same operation id, exactly when the durable hashes agree with it. |
| `TransferReceipts.RetriedReceiptKeepsItsId` | apps/desktop/src/main.ts:2644-2658 | Within one transfer two receipts share an operation id iff target and hashes are equal. |
| `TransferReceipts.ReceiptIdsAreContentAddressed` | apps/desktop/src/main.ts:2644-2658 | Across transfers they share it iff transfer id with target, and both hashes, are the same text. |
| `TransferReceipts.ReceiptIdsCanMeet` | apps/desktop/src/main.ts:2644-2658 | The colon that joins the parts is ambiguous: for every bundle hash two well-formed receipts of two transfers share their id. |
| `TransferReceipts.PhaseIdsAreDistinct` | apps/desktop/src/main.ts:2632-2636 | Digest-based ids of two requests are equal iff transfer and phase are. |
| `TransferReceipts.ReceiptIdsAreNoPhaseIds` | apps/desktop/src/main.ts:2632-2658 | A receipt never has the id of a phase, not even of the phase called receipt. |
| `TransferReceipts.ShortTransferIdsStandAlone` | apps/desktop/src/main.ts:2633 | The id of a begin request, which is the transfer id, is no other request's as long as it is shorter than 72 characters, as every generated one is. |
| `TransferReceipts.LongTransferIdsCanMeet` | apps/desktop/src/main.ts:4299 | The pattern for ids admits longer ones that are the id of another transfer's import. |
| `TransferBundle.Validate` | apps/desktop/src/main.ts:3709-3750 | Accepts exactly the acceptable bundles, keeps entries in order, and reports the size that text lengths and padding determine. |
| `TransferBundle.ValidateEntries` | apps/desktop/src/main.ts:3732-3748 | The entry loop: distinct safe paths, Base64 contents, at most 120,000,000 bytes; paths resolve to themselves. |
| `WorkspacePaths.SafePathsResolveToThemselves` | apps/desktop/src/main.ts:3737-3739 | Resolving an accepted path from the Workspace root leaves it unchanged. |
| `WorkspacePaths.SafeIsUnchanged` | apps/desktop/src/main.ts:3737-3739 | Accepted are exactly the paths without backslashes that resolving leaves unchanged. |
| `Base64.SizeIsExact` | apps/desktop/src/main.ts:3740-3746 | A recognized text decodes to three quarters of its length less its padding. |
| `Base64.DecodeInvertsEncode` | apps/desktop/src/main.ts:3740-3744 | Decoding an encoding gives the bytes back. |
| `Base64.LettersAreListed` | apps/desktop/src/main.ts:3740-3744 | The alphabet is that of table 1 of RFC 4648. |
| `Base64.PatternsAgree` | apps/desktop/src/workspace-attachment-requests.ts:125 | On whole groups of four the attachment pattern recognizes the same texts as the bundle pattern. |
| `Base64.AttachmentBoundIsTight` | apps/desktop/src/workspace-attachment-requests.ts:5 | Every encoding of up to 8 MiB is accepted, and nothing that decodes to more than 8 MiB and one byte. |
| `Activation.WinnersApplySequentially` | apps/desktop/src/main.ts:5660-5701 | In every interleaving commits happen in strictly increasing generation order, memory is the sequential application of the winners' choices, and a rejected or overtaken activation contributes nothing. |
| `Activation.LosersChangeNothing` | apps/desktop/src/main.ts:5670-5699 | The section in which an activation is rejected or overtaken changes neither registry, target nor disk, and it never commits. |
| `Activation.NewestSuccessOwnsAll` | apps/desktop/src/main.ts:5689-5700 | If the newest activation succeeded, disk, memory and active target are its own and nothing is pending. |
| `Activation.DiskIsExact` | apps/desktop/src/main.ts:5691-5697 | At every moment of every run the disk is memory with one more choice applied, that of the newest activation that wrote the file, unless that one won; so both agree iff there is no such activation or its choice changes nothing. |
| `Activation.AheadIsNewestWrite` | apps/desktop/src/main.ts:5693-5696 | Which choice that is: of the newest activation whose save has ended well. |
| `Activation.DiskAheadIsAbandoned` | apps/desktop/src/main.ts:5691-5697 | With the chain empty, disk and memory agree if every activation abandoned after its save is followed by a winner. |
| `Activation.DiskCanStayAhead` | apps/desktop/src/main.ts:5693-5694 | A run that ends with the chain empty and the disk ahead of memory. |
| `Activation.StepKeepsValid` | apps/desktop/src/main.ts:5660-5701 | Every atomic section keeps chain order, commit order, and that the newest pending registry was computed from the one it will replace. |
| `Activation.WinnerIsAppended` | apps/desktop/src/main.ts:5695-5696 | A commit applies its choice to the very registry that memory holds. |
| `Activation.Selection.BeginActivation` | apps/desktop/src/main.ts:5664-5669 | The first atomic section takes a generation, advances the selection generation, and advances the target generation exactly if the target is not the active one. |
| `Activation.Selection.ReceiveAuthorization` | apps/desktop/src/main.ts:5670-5690 | The answer is rejected, overtaken, or queued with the registry computed from the present one; which answers may lead to a commit is `ChoicesAreAuthorised`. |
| `Activation.ChoicesAreAuthorised` | apps/desktop/src/main.ts:5670-5690 | In every run an activation that is queued, saved, committed or abandoned after its save began for that target, and was answered with an authorization for exactly the organization and room it carries, in agreement with the organization it asked for. |
| `Activation.AuthorizedNewestWins` | apps/desktop/src/main.ts:5660-5701 | And whoever is granted what it asked for wins: if its target is admissible, nobody begins after it and no save fails, it owns memory, disk and active target once the chain has run empty. |
| `Activation.WinnersWriteTheirTargets` | apps/desktop/src/main.ts:5678-5700 | In every run the registry in memory is the first one with, for every target a winner chose, the entry of its last winner; connections and all other entries stay, and the active target is that of the last winner. |
| `Activation.ChoosesExactly` | apps/desktop/src/workspace-connections.ts:384-445 | A choice is possible exactly when its connection is listed and its target neither superseded nor gone since it was seen; it lists and selects the target as it was authorized and touches nothing else. |
| `Activation.Selection.StartCommit` | apps/desktop/src/main.ts:5691-5692 | An overtaken activation leaves the chain unsaved. |
| `Activation.Selection.EndSave` | apps/desktop/src/main.ts:5693 | A failed save changes neither disk nor memory. |
| `Activation.Selection.FinishCommit` | apps/desktop/src/main.ts:5694-5697 | Only the newest activation replaces registry and target. |
| `Activation.Selection.Drive` | apps/desktop/src/main.ts:5660-5701 | Any schedule of the sections runs those that are enabled when their turn comes, in order; the selection generation has then advanced once for every activation that began. |
| `ShareImport.ImportLink` | apps/desktop/src/main.ts:1531-1639 | How many of the three requests leave is told exactly by the navigation at each check, the target asked for, the keys and the replies; each is given in full. When the import request leaves, view, claim, delegation and import agree on source, claim, account, target, operation and content. The call returns exactly if it left, the navigation is still the one at receipt and the reply has status 200 or 201 with a body, and it returns that body. |
| `ShareImport.ImportDuringActivations` | apps/desktop/src/main.ts:1531-1639 | Beside any sections of any activations: if the call returns, no activation began while it ran, nor did anything else advance the selection; if the import request left, none had begun until then. It returns exactly under the condition of `ImportLink`, and then the body of the import reply. |
| `ShareImport.Watch` | apps/desktop/src/main.ts:5664-5667 | What the call sees of the selection at its six checks counts the activations that have begun. |
| `ShareImport.ViewSource` | apps/desktop/src/main.ts:1531-1551 | The view leaves exactly for a selected, listed target that fits what was asked for; it succeeds exactly if the navigation has not moved and the reply is a 200 with a content hash, which it returns. |
| `ShareImport.ClaimContent` | apps/desktop/src/main.ts:1557-1595 | After an answered view the claim leaves exactly from an unmoved navigation with the key and the known origin, for this account and target; and its reply must repeat exactly that. |
| `ShareImport.NothingBegan` | apps/desktop/src/main.ts:4444-4458 | Equal navigation snapshots at two of the checks mean that no activation began in between. |
| `CanonicalJson.PrintIsInjectiveUpToOrder` | apps/desktop/src/main.ts:5463-5475 | Two finite values print equally iff they are equal as unordered trees. |
| `CanonicalJson.PrintRoundTrips` | apps/desktop/src/main.ts:5463-5475 | Parsing the print gives the tree back, and printing that gives the same text. |
| `CanonicalJson.PrintsExactlyFiniteValues` | apps/desktop/src/main.ts:5463-5475 | The printer throws exactly on values with an infinite number or something unserializable inside. |
| `CanonicalJson.PrintRendersCanonical` | apps/desktop/src/main.ts:5470-5472 | Sorting printed members is printing sorted members, at every level. |
| `CanonicalJson.PrintedKeysAscend` | apps/desktop/src/main.ts:5472 | Whoever parses the printed text meets, in every object at any depth, keys each of which precedes the next: at the first place where they differ by a smaller code unit, or by ending there. |
| `CanonicalJson.AscendingIsFixed` | apps/desktop/src/main.ts:5470-5472 | A value is printed member by member as it stands exactly if its keys ascend already. |
| `JsonText.ParseRendered` | apps/desktop/src/main.ts:5463-5475 | Every rendered value is read back by the grammar of RFC 8259. |
| `JsonText.RenderIsLiteral` | apps/desktop/src/main.ts:5463-5475 | The words and the punctuation of the text, character by character. |
| `JsonNumbers.NumberReadsBack` | apps/desktop/src/main.ts:5465-5468 | Every finite number is read back from its shortest text, in all four layouts. |
| `JsonNumbers.NumberTextIsLiteral` | apps/desktop/src/main.ts:5465-5468 | The text of a finite number, character by character: positional from a millionth up to below ten to the 21, with a signed exponent elsewhere. |
| `JsonStrings.StringReadsBack` | apps/desktop/src/main.ts:5464 | Every string of UTF-16 code units, lone surrogates included, is read back from its quoted form. |
| `JsonStrings.QuotedIsLiteral` | apps/desktop/src/main.ts:5464 | The quoted form unit by unit: the seven short escapes, lower-case hexadecimal for other controls and for surrogates that are no half of a pair, and everything else as it is. |
| `Utf8.RoundTripTestIsExact` | apps/desktop/src/artifact-content-boundary.ts:159-160 | For every replacing decoder the test accepts exactly the well-formed sequences of section 4 of RFC 3629. |
| `Utf8.DecodeInvertsEncode` | apps/desktop/src/artifact-content-boundary.ts:159-160 | Bytes that really contain U+FFFD pass as well and decode to the text that was encoded. |
| `Utf8.DecodeReplaces` | apps/desktop/src/artifact-content-boundary.ts:159 | The decoder that replaces maximal subparts is a replacing decoder. |
| `Utf8.SubpartIsMaximal` | apps/desktop/src/artifact-content-boundary.ts:159 | Where no sequence begins, one U+FFFD takes the longest start of a well-formed sequence, or a single byte. |
| `Utf8.UnitsAreInjective` | apps/desktop/src/artifact-content-boundary.ts:161 | Different texts are different strings, so the comparison decides. |
| `ArtifactBoundary.AcceptanceIsSound` | apps/desktop/src/artifact-content-boundary.ts:31-162 | Success implies that all records speak of the Workspace, Room, Artifact and one revision asked for, and that headers, metadata, sizes, hash and content, read literally, are all true of one content. |
| `ArtifactBoundary.IdentityIsExact` | apps/desktop/src/artifact-content-boundary.ts:44-67 | The identity checks pass exactly when all records name only what was asked for and one revision: the one asked for, or else the current one. |
| `ArtifactBoundary.HonestIsAccepted` | apps/desktop/src/artifact-content-boundary.ts:31-162 | Every pair of responses that is honest in this literal sense is accepted. |
| `ArtifactBoundary.OutputIsAcceptedAgain` | apps/desktop/src/artifact-content-boundary.ts:128 | Feeding the output back with the same raw response returns it unchanged. |
| `ArtifactBoundary.AcceptedTextIsExact` | apps/desktop/src/artifact-content-boundary.ts:159-161 | Accepted content whose encoding is the text `utf8` is well-formed UTF-8 for exactly the declared string. |
| `ArtifactBoundary.ExpectationIsSound` | apps/desktop/src/artifact-content-boundary.ts:67-118 | The metadata the content has to meet is what response, revision and artifact all say. |
| `ArtifactBoundary.RawIsExact` | apps/desktop/src/artifact-content-boundary.ts:131-162 | The raw response passes iff it carries the content under literally matching headers, the kind fits, and the text does. |
| `ArtifactBoundary.DeclaredIsExact` | apps/desktop/src/artifact-content-boundary.ts:110-125 | Bytes, size and hash that the response declares are those of the content. |
| `ArtifactFields.DeclaredMeans` | apps/desktop/src/artifact-content-boundary.ts:198-241 | A field under several names is accepted iff some name is given and all given ones agree. |
| `ArtifactFields.EncodingIsMeant` | apps/desktop/src/artifact-content-boundary.ts:210-213 | An encoding is read as text exactly from `utf8` and as bytes exactly from `binary`. |
| `ArtifactFields.MimeTypeIsMeant` | apps/desktop/src/artifact-content-boundary.ts:191-196 | A type is read as a well-formed lower-case name exactly from that name in any case between blanks. |
| `ArtifactFields.HeaderMimeIsMeant` | apps/desktop/src/artifact-content-boundary.ts:204-208 | In a header the same holds of the part before the first semicolon. |
| `ArtifactFields.HeaderSizeIsMeant` | apps/desktop/src/artifact-content-boundary.ts:253-258 | A header size is read exactly from the decimal of a number up to 8 MiB, without leading zeros. |
| `ArtifactFields.HashIsMeant` | apps/desktop/src/artifact-content-boundary.ts:243-246 | A hash is read exactly from its 64 hexadecimal digits in any case. |
| `ArtifactFields.IdIsMeant` | apps/desktop/src/artifact-content-boundary.ts:181-184 | An id is at most 128 letters, digits, dots, underscores, colons and hyphens, and begins with a letter or digit. |
| `ArtifactBoundary.ByteArray` | apps/desktop/src/artifact-content-boundary.ts:260-272 | The copy loop returns the bytes or the error that the list calls for. |
| `BoundedReader.ReadBounded` | apps/desktop/src/main.ts:5477-5516 | Succeeds exactly on readable responses, with the concatenation of the chunks within the cap. |
| `BoundedReader.ReadChunks` | apps/desktop/src/main.ts:5490-5505 | The reading loop stops at the first bad chunk or beyond the cap. |
| `BoundedReader.CopyChunks` | apps/desktop/src/main.ts:5509-5514 | The chunks are copied one behind the other. |
| `EventWindow.Realtime.Accept` | apps/desktop/src/main.ts:6490-6503 | An event is accepted iff its id is not in the window; the window is the last 2000 accepted ids, pairwise distinct. |
| `EventWindow.Realtime.PageArrives` | apps/desktop/src/main.ts:6462-6482 | A replayed page is accepted event by event into the same window. Its loop asks for the next page exactly if its connection is the present one, the page names one and says that there is more, and it has made fewer than twenty requests; no other loop changes. |
| `EventWindow.Realtime.Live` | apps/desktop/src/main.ts:6350-6353 | A live event of the current connection goes through the same test. |
| `EventWindow.Realtime.Reconnect` | apps/desktop/src/main.ts:6310-6316 | A reconnect empties the window and leaves running loops behind. |
| `EventWindow.Realtime.Drive` | apps/desktop/src/main.ts:6310-6503 | Every interleaving of reconnects, connections, live events and replay pages forwards exactly what the fold over them says, and leaves cursor, loops and window accordingly. |
| `EventWindow.ForwardedIsOffered` | apps/desktop/src/main.ts:6345-6503 | Between two reconnects nothing is lost and nothing invented: every event that a step of the schedule brings on the present connection is forwarded, itself or one with its id, and everything forwarded was brought by some step. |
| `EventWindow.WindowMoves` | apps/desktop/src/main.ts:6494-6499 | Adding an id and dropping the oldest keeps exactly the last 2000. |
| `EventWindow.RepeatsLieOutsideTheWindow` | apps/desktop/src/main.ts:6494 | Two equal accepted ids are more than 2000 accepted ids apart. |
| `StrictJson.MainAcceptsWhatTheRendererEmits` | apps/desktop/src/main.ts:4996-5048 | Main accepts a fresh copy of every object the renderer lets through and returns it unchanged. |
| `StrictJson.MainReturnsItsInput` | apps/desktop/src/main.ts:4996-5012 | What Main returns is the tree it was given, within all bounds. |
| `StrictJson.MainIsStricter` | apps/desktop/src/main.ts:5030-5048 | Main accepts exactly what the renderer accepts and meets as a tree of new objects. |
| `StrictJson.AcceptedIsBoundedTree` | apps/desktop/src/preload-sanitizers.ts:287-301 | What the renderer accepts is a finite tree within the depth, width and key bounds. |
| `StrictJson.BoundedTreeIsAccepted` | apps/desktop/src/preload-sanitizers.ts:287-301 | And every such tree is accepted. |
| `StrictJson.CyclesAreRejected` | apps/desktop/src/preload-sanitizers.ts:287-301 | A value on a cycle is never accepted. |
| `StrictJson.PathsAreShort` | apps/desktop/src/preload-sanitizers.ts:287-301 | No path from an accepted value is longer than the depth bound. |
| `StrictJson.SeenSet.Value` | apps/desktop/src/main.ts:5038-5048 | The check as it runs, with its set of objects met, computes the specification. |
| `Sanitizers.SanitizerIsIdempotent` | apps/desktop/src/main.ts:6144-6157 | Sanitizing twice is sanitizing once, and the output is within every bound and free of dropped keys. |
| `Sanitizers.PoliciesAreStable` | apps/desktop/src/main.ts:5844-5845 | Truncating a kept key never makes it a dropped one, for both sanitizers. |
| `Sanitizers.DroppedPartsDoNotMatter` | apps/desktop/src/main.ts:6144-6200 | Inputs that differ only beyond a bound, beyond the cut of a key, under a dropped key, or in members and items that become undefined have equal outputs. |
| `Sanitizers.SanitizedIsClean` | apps/desktop/src/main.ts:6144-6157 | Depth, width, key set and string lengths of every output are bounded, also after keys collide. |
| `Sanitizers.SecretsNeverCross` | apps/desktop/src/main.ts:5844-5845 | No key of an event that reaches the renderer, at any depth, has one of the secret words in it or is one of the body names, in any case of letters. |
| `Sanitizers.EventKeysAreLiteral` | apps/desktop/src/main.ts:5844-5845 | The event sanitizer drops exactly those keys, with the bounds as they are. |
| `Sanitizers.PublicKeysAreLiteral` | apps/desktop/src/main.ts:6193-6195 | The public sanitizer drops exactly the keys with a secret word, the token unless it is asked for, and every key that is not on its list. |
| `Sanitizers.SanitizeValue` | apps/desktop/src/main.ts:6144-6157 | The loops that fill the output array and object compute the specification. |
| `SchemaSampler.SamplerIsSound` | scripts/fixtures/domain-commands-gate.ts:422-478 | On the supported fragment a sample is returned and the schema accepts it. |
| `SchemaSampler.SampledObjectIsExact` | scripts/fixtures/domain-commands-gate.ts:436-441 | A sampled object has exactly all properties, or exactly the required ones, each with a sample of its own schema. |
| `SchemaSampler.SampledArrayIsExact` | scripts/fixtures/domain-commands-gate.ts:442-458 | A sampled array has one item for every schema given by position, or else as many as are asked for. |
| `SchemaSampler.OverIsOver` | scripts/fixtures/domain-commands-gate.ts:422-478 | A call that returns does so with the same value however far it is followed. |
| `SchemaSampler.NothingIsBoth` | scripts/fixtures/domain-commands-gate.ts:424-428 | No value is both accepted and rejected, so the chosen branch of a union is the only one. |
| `JsonPointer.PointerResolvesToNode` | scripts/fixtures/domain-commands-gate.ts:484-491 | The escaped pointer to a node resolves to that node, in every tree. |
| `JsonPointer.UnescapeInvertsEscape` | scripts/fixtures/domain-commands-gate.ts:486 | Replacing ~1 before ~0 undoes the escaping of every key. |
| `CandidateChoice.ScoreIsBounded` | workers/skill-optimization/worker.py:83-89 | Every score lies between 45 and 100, so the clamp never acts. |
| `CandidateChoice.ScoreIsShare` | workers/skill-optimization/worker.py:74-89 | The score by words alone: 45, up to 45 for the share of the expected words that the answer has in common, and up to 10 for its first 400 characters; a word is a whole run of at least two word characters. |
| `CandidateChoice.RegressionIsExact` | workers/skill-optimization/worker.py:118-144 | Regression holds iff some holdout example with a baseline lost more than 20 points. |
| `CandidateChoice.BaselineIsLast` | workers/skill-optimization/worker.py:210-214 | The baseline of an id is the score of the last example with that id. |
| `CandidateChoice.EvaluateCandidate` | workers/skill-optimization/worker.py:118-144 | The evaluation loop, its holdout score and its regression flag. |
| `CandidateChoice.HoldoutScoreIsMean` | workers/skill-optimization/worker.py:141-143 | The holdout score is the mean over exactly the holdout examples. |
| `CandidateChoice.CollectEntries` | workers/skill-optimization/worker.py:221-243 | At most eight entries, one for every body at its first occurrence. |
| `CandidateChoice.SortReports` | workers/skill-optimization/worker.py:251 | Sorting reports the same entries, strictly best first. |
| `CandidateChoice.Choose` | workers/skill-optimization/worker.py:205-256 | Fails exactly if the optimizer's result has no body or none of the first eight candidates has one; a result without candidates is the only one; the reported entries are first occurrences of distinct bodies, each outranks the ones behind it by validation score, or holdout score where there is none, the later candidate first among equals; and the chosen one differs from the original whenever some candidate does. |

## Left out

- Servers: they are an environment. The source ledger follows its SQL functions; an import creates the destination Workspace once and replays its receipt; a status below 500 means that a request was not applied. Membership, authorization and the content of bundles are not modelled.
- Concurrency of one transfer id: calls and preflights of one id run one after another, as they do when only execute calls share a promise (apps/desktop/src/main.ts:3812-3823).
- TransferDesktop.Desktop.Execute: the rollback rule is one for a single call, because a new call starts without the open outcome of the one before (apps/desktop/src/main.ts:3883); `FailureIsAccounted` says exactly when this rolls the source back although an earlier import stands, and `RollbackAfterOpenImport` is a run in which it does.
- TransferDesktop.Desktop.RunHistory: speaks of calls whose Servers say what is the case, say nothing, or fail, and whose broken import replies do not happen to verify; a Server that lies about the ledger can make a transfer stop for good.
- TransferDesktop.Desktop.Execute: edits of the registry by other features and the eviction of the oldest of 256 recorded transfers do not occur during a history; the two connections stay listed.
- TransferState.CutoverSwitches: a request whose two sides share a connection is refused before it gets here (apps/desktop/src/main.ts:3123), so its further checks on one connection (apps/desktop/src/workspace-connections.ts:349-352) are not part of the model.
- Transfer records: Workspace names, sizes, entry counts, timestamps and messages are left out of the checkpoint, since nothing is decided by them.
- Fresh preflights: the model relies on a checkpoint of phase `preflight` carrying no receipt, which every writer keeps.
- Activation.WinnersApplySequentially: other writers of the registry (invitations, directory listing, realtime revocation) take no generation and are not part of the interleavings.
- CanonicalJson.PrintIsInjectiveUpToOrder: numbers are shortest decimals; which of them are doubles, and negative zero, are not modelled.
- JavaScript corners: `__proto__` keys, getters, `toJSON`, sparse arrays and the order of integer-like keys.
- ShareImport.ImportLink: URL normalization, request headers and signatures are opaque; the validity of a delegation payload is an input.
- TransferReceipts.PhaseIdsAreDistinct: the truncated digest is a parameter that must tell the two inputs apart.
- SchemaSampler.SamplerIsSound: schemas nested without end are followed to a given depth; keywords the sampler never reads (`allOf`, `maximum`, `maxLength` and others) are outside the fragment.
- CandidateChoice.Choose: numbers are reals and a module answers a prompt the same way each time it is asked within a run; the optimizer and the parents of a candidate are not modelled.
- EventWindow.Realtime.Accept: the shape of the notice that crosses to the renderer is not modelled; the last cursor is not monotone and nothing is claimed of it.
- Electron windows, shortcuts, IPC registration, HTTP, Socket.IO, key storage and the thin request builders: plumbing or one-branch field checks.
